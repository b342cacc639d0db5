/** What holds after every operation and over whole runs of the manager's state. */
module Runs {
  import opened Text
  import opened Jobs
  import opened Scheduler
  import opened Lifecycle
  import opened LoopFacts
  import opened StepFacts
  import opened Placement
  import Cdip

  // ----- every operation -----

  lemma MoveStageKeeps(s: Store, id: string, next: Cdip.StageState, detail: string, now: int)
    requires Valid(s) && AcceptsStageState(s, id, next)
    ensures var s' := SetJob(s, id, StageMoved(s.jobs[id], next, detail, now)); Valid(s') && JobsMove(s, s')
  {
    var job := StageMoved(s.jobs[id], next, detail, now);
    assert Makes(Stage(next), s.jobs[id], job);
    ChangeKeepsValid(s, id, job);
    OneJobMoves(s, id, job);
  }

  /** A change of one job that leaves it where it is and takes no slot. */
  lemma QuietChangeKeeps(s: Store, id: string, m: Move, job: Job)
    requires Valid(s) && id in s.jobs && Makes(m, s.jobs[id], job)
    requires m in {Stay, Start, Move.Close}
    ensures Valid(SetJob(s, id, job)) && JobsMove(s, SetJob(s, id, job)) && WithinSlots(s, SetJob(s, id, job))
  {
    ChangeKeepsValid(s, id, job);
    OneJobMoves(s, id, job);
    ChangeFreesSlots(s, id, job);
  }

  /** Safety of one step: a valid state stays valid, every job makes one legal move, and no worker is loaded beyond
      its slots, except by exactly the stage moves that start a stage on a full worker. */
  lemma StepKeeps(s: Store, op: Op, now: int, s': Store)
    requires Valid(s) && Step(s, op, now, s')
    ensures Valid(s') && JobsMove(s, s')
    ensures WithinSlots(s, s') <==> !Overfills(s, op)
  {
    hide Valid, JobsMove, WithinSlots, Performs, AcceptsStageState, Overfills;
    if op.MoveStage? {
      StageMoveWithinSlots(s, op, now, s');
    } else {
      OnlyStagesOverfill(s, op);
    }
    if s' == s {
      UnchangedKeeps(s);
    } else if op.NextJob? || op.Progress? || op.Close? || op.Benchmark? || op.MoveStage? {
      QuietStepKeeps(s, op, now, s');
    } else {
      WorkerStepKeeps(s, op, now, s');
    }
  }

  lemma OnlyStagesOverfill(s: Store, op: Op)
    requires !op.MoveStage?
    ensures !Overfills(s, op) && !Misplaces(s, op)
  {
  }

  lemma UnchangedKeeps(s: Store)
    ensures JobsMove(s, s) && WithinSlots(s, s)
  {
    UnchangedMoves(s);
  }

  /** The operations that run the queue, lose a worker or admit jobs. */
  lemma WorkerStepKeeps(s: Store, op: Op, now: int, s': Store)
    requires Valid(s) && Step(s, op, now, s') && s' != s
    requires !op.NextJob? && !op.Progress? && !op.Close? && !op.Benchmark? && !op.MoveStage?
    ensures Valid(s') && JobsMove(s, s') && WithinSlots(s, s')
  {
    hide Load, Makes, Sound, Moves, SchedulesQueue, FailsActiveJobs, ListsNodes, Creates, CreatesBatch;
    match op
    case Register(node) => OnlineNodeThenQueue(s, node, now, s');
    case Heartbeat(w, res) => OnlineNodeThenQueue(s, Refreshed(s, w, res, now).nodes[w], now, s');
    case MarkOffline(w) =>
      LosingKeeps(s, w, now, WENT_OFFLINE, s');
      LosingWithinSlots(s, w, now, s');
    case Nodes => ListsNodesKeeps(s, now, s');
    case Create(id, req) => CreatesKeeps(s, id, req, now, s');
    case CreateBatch(ids, reqs) => CreatesBatchKeeps(s, ids, reqs, now, s');
    case Complete(id, rep) => CompletesKeeps(s, id, rep, now, s');
    case Cancel(id) => CancelsKeeps(s, id, now, s');
  }

  /** The operations that change one job where it is, or none. */
  lemma QuietStepKeeps(s: Store, op: Op, now: int, s': Store)
    requires Valid(s) && Step(s, op, now, s') && s' != s
    requires op.NextJob? || op.Progress? || op.Close? || op.Benchmark? || op.MoveStage?
    ensures Valid(s') && JobsMove(s, s')
    ensures !op.MoveStage? ==> WithinSlots(s, s')
  {
    hide Load, Makes, Sound, Moves;
    match op
    case NextJob(w) =>
      var id :| id in s.jobs && s.jobs[id].status == Scheduled && s' == SetJob(s, id, Started(s.jobs[id], now));
      StartedStarts(s.jobs[id], now);
      QuietChangeKeeps(s, id, Start, Started(s.jobs[id], now));
    case Progress(id, w, caption) =>
      ProgressStays(s.jobs[id], caption, now);
      QuietChangeKeeps(s, id, Stay, Progressed(s.jobs[id], caption, now));
    case MoveStage(id, next, detail) => MoveStageKeeps(s, id, next, detail, now);
    case Close(id, result, error) =>
      ClosedCloses(s.jobs[id], result, error, now);
      QuietChangeKeeps(s, id, Move.Close, Closed(s.jobs[id], result, error, now));
    case Benchmark(scores) => BenchmarkKeeps(s, scores);
  }

  /** Where jobs sit after one step: none is newly active off an online worker, except by exactly the stage moves
      that start a stage on a worker that is not online. */
  lemma StepStrays(s: Store, op: Op, now: int, s': Store)
    requires Valid(s) && Step(s, op, now, s')
    ensures NoNewStray(s, s') <==> !Misplaces(s, op)
  {
    hide Valid, Creates, CreatesBatch, Completes, Cancels, ListsNodes, SchedulesQueue, FailsActiveJobs, NoNewStray;
    hide Misplaces, AcceptsStageState;
    if op.MoveStage? {
      StageMoveStrays(s, op, now, s');
    } else {
      OnlyStagesOverfill(s, op);
      if s' == s {
        NothingStrays(s);
      } else {
        OthersStrayNobody(s, op, now, s');
      }
    }
  }

  lemma OthersStrayNobody(s: Store, op: Op, now: int, s': Store)
    requires Valid(s) && Step(s, op, now, s') && s' != s && !op.MoveStage?
    ensures NoNewStray(s, s')
  {
    hide Valid, Creates, CreatesBatch, Completes, Cancels, ListsNodes, SchedulesQueue, FailsActiveJobs, NoNewStray;
    match op
    case Register(node) => NodeStraysNobody(s, node, now, s');
    case Heartbeat(w, res) => RefreshStraysNobody(s, w, res, now, s');
    case MarkOffline(w) =>
      LosingKeeps(s, w, now, WENT_OFFLINE, s');
      LosingStraysNobody(s, w, now, s');
    case Nodes =>
      ListsNodesKeeps(s, now, s');
      ListingStraysNobody(s, now, s');
    case Create(id, req) => CreateStraysNobody(s, id, req, now, s');
    case CreateBatch(ids, reqs) => BatchStraysNobody(s, ids, reqs, now, s');
    case Complete(id, rep) => CompletesStraysNobody(s, id, rep, now, s');
    case Cancel(id) => CancelsStraysNobody(s, id, now, s');
    case _ => QuietStepStraysNobody(s, op, now, s');
  }

  lemma NodeStraysNobody(s: Store, node: Node, now: int, s': Store)
    requires Valid(s) && node.id != "" && node.status == Online
    requires SchedulesQueue(s.(nodes := s.nodes[node.id := node]), now, s')
    ensures NoNewStray(s, s')
  {
    hide SchedulesQueue, Load, NoNewStray, Sound;
    var mid := s.(nodes := s.nodes[node.id := node]);
    OnlineNodeStraysNobody(s, node);
    QueueConservesWork(mid, now, s');
    QueueStraysNobody(mid, now, s');
    NoNewStrayTrans(s, mid, s');
  }

  lemma RefreshStraysNobody(s: Store, w: string, res: Resources, now: int, s': Store)
    requires Valid(s) && w in s.nodes && SchedulesQueue(Refreshed(s, w, res, now), now, s')
    ensures NoNewStray(s, s')
  {
    hide SchedulesQueue, NoNewStray, Sound;
    NodeStraysNobody(s, Refreshed(s, w, res, now).nodes[w], now, s');
  }

  lemma QuietStepStraysNobody(s: Store, op: Op, now: int, s': Store)
    requires Valid(s) && Step(s, op, now, s') && s' != s
    requires op.NextJob? || op.Progress? || op.Close? || op.Benchmark?
    ensures NoNewStray(s, s')
  {
    hide Load, Valid;
    match op
    case NextJob(w) =>
      var id :| id in s.jobs && s.jobs[id].status == Scheduled && s' == SetJob(s, id, Started(s.jobs[id], now));
      ChangeStraysNobody(s, id, Started(s.jobs[id], now));
    case Progress(id, w, caption) => ChangeStraysNobody(s, id, Progressed(s.jobs[id], caption, now));
    case Close(id, result, error) => ChangeStraysNobody(s, id, Closed(s.jobs[id], result, error, now));
    case Benchmark(scores) =>
  }

  /** Such a stage move exists: a worker with one slot, busy and offline since, on which a stage is told to prepare. */
  lemma StageOverfillsWorker() returns (s: Store, op: Op, s': Store)
    ensures Valid(s) && Step(s, op, 0, s')
    ensures !WithinSlots(s, s') && !NoNewStray(s, s')
  {
    hide Blank, Sound, NormalizeMaxAttempts;
    s := BusyOffline();
    op := MoveStage("b", Cdip.Preparing, "");
    BusyOfflineIsValid();
    s' := SetJob(s, "b", StageMoved(s.jobs["b"], Cdip.Preparing, "", 0));
    assert AcceptsStageState(s, "b", Cdip.Preparing);
    assert "a" in ActiveSet(s.jobs, "w");
    assert Overfills(s, op) && Misplaces(s, op);
    hide Load, Valid, Overfills, Misplaces, BusyOffline, StageMoved;
    StageMoveWithinSlots(s, op, 0, s');
    StageMoveStrays(s, op, 0, s');
  }

  function BusyOffline(): Store {
    var none := Requirements(0, 0, 0, false, 0);
    var request := CreateRequest(JOB_STAGE, RawInput(""), "", "w", none, 1, true, Cdip.Planned, "p", 0);
    var running := NewJob("a", request, 0).(
      assignedTo := "w", status := Running, attempts := 1, cdipState := Cdip.Decode);
    var queued := NewJob("b", request, 0).(assignedTo := "w");
    Store(
      map["w" := Node("w", "w", Worker, Offline, "", Resources(1, 1, [], 1, 1, 1), 0, 0)],
      map["a" := running, "b" := queued], map[])
  }

  lemma BusyOfflineIsValid()
    ensures Valid(BusyOffline()) && !Blank("w")
  {
    TrimSpaceTrims("w");
  }

  lemma StartedStarts(j: Job, now: int)
    ensures j.status == Scheduled ==> Makes(Start, j, Started(j, now))
  {
  }

  lemma ProgressStays(j: Job, caption: string, now: int)
    ensures Makes(Stay, j, Progressed(j, caption, now))
  {
  }

  lemma ClosedCloses(j: Job, result: string, error: string, now: int)
    ensures j.kind == JOB_DISTRIBUTED ==> Makes(Move.Close, j, Closed(j, result, error, now))
  {
  }

  lemma BenchmarkKeeps(s: Store, scores: map<string, real>)
    requires Valid(s)
    ensures Valid(s.(scores := scores)) && JobsMove(s, s.(scores := scores)) && WithinSlots(s, s.(scores := scores))
  {
    UnchangedMoves(s);
    forall w ensures Load(s.(scores := scores), w) == Load(s, w) {
      SameJobsSameLoad(s, s.(scores := scores), w);
    }
  }

  /** The CDIP state is the same, and a job that had ended ended the same way. */
  predicate SameEnd(j: Job, j': Job) {
    j'.cdipState == j.cdipState && (j.IsTerminal() ==> j'.status == j.status)
  }

  /** No job came or went, none changed its CDIP state, and none ended again. */
  ghost predicate SameStages(s: Store, s': Store) {
    s'.jobs.Keys == s.jobs.Keys && forall id :: id in s.jobs ==> SameEnd(s.jobs[id], s'.jobs[id])
  }

  lemma QueueSameStages(s: Store, mid: Store, now: int, s': Store)
    requires WellKeyed(mid) && SchedulesQueue(mid, now, s') && SameStages(s, mid)
    ensures SameStages(s, s')
  {
    hide Load, SchedulesQueue, Makes, WellKeyed;
    QueueConservesWork(mid, now, s');
    forall id | id in s.jobs ensures SameEnd(s.jobs[id], s'.jobs[id]) {
      assert QueueTouch(mid.jobs[id], s'.jobs[id]);
    }
  }

  lemma NodeSameStages(s: Store, node: Node, now: int, s': Store)
    requires Valid(s) && node.id != "" && SchedulesQueue(s.(nodes := s.nodes[node.id := node]), now, s')
    ensures SameStages(s, s')
  {
    hide Sound, SchedulesQueue;
    QueueSameStages(s, s.(nodes := s.nodes[node.id := node]), now, s');
  }

  lemma OfflineSameStages(s: Store, w: string, now: int, s': Store)
    requires Valid(s) && w in s.nodes && FailsActiveJobs(TakenOffline(s, w, now), w, now, WENT_OFFLINE, s')
    ensures SameStages(s, s')
  {
    hide Valid, FailsActiveJobs, Load;
    LosingKeeps(s, w, now, WENT_OFFLINE, s');
    forall id | id in s.jobs ensures SameEnd(s.jobs[id], s'.jobs[id]) {
      assert FailTouch(s.jobs[id], s'.jobs[id], w);
    }
  }

  lemma ListingSameStages(s: Store, now: int, s': Store)
    requires Valid(s) && ListsNodes(s, now, s')
    ensures SameStages(s, s')
  {
    hide Valid, ListsNodes, Load;
    ListsNodesKeeps(s, now, s');
    forall id | id in s.jobs ensures SameEnd(s.jobs[id], s'.jobs[id]) {
      assert TimeoutTouch(s, s.jobs[id], s'.jobs[id], now);
    }
  }

  lemma ReportKeepsStage(s: Store, k: string, rep: Report, now: int, out: Job)
    requires AcceptsReport(s, k, rep) && ReportMakes(s, k, rep, now, out)
    ensures out.id == s.jobs[k].id && SameEnd(s.jobs[k], out)
  {
    hide Load;
  }

  lemma CompletesSameStages(s: Store, k: string, rep: Report, now: int, s': Store)
    requires Valid(s) && Completes(s, k, rep, now, s')
    ensures SameStages(s, s')
  {
    hide Sound, SchedulesQueue, Load, OnlinePlaced, Eligible, ReportMakes;
    if AcceptsReport(s, k, rep) {
      var out :| ReportMakes(s, k, rep, now, out) && SchedulesQueue(SetJob(s, k, out), now, s');
      ReportKeepsStage(s, k, rep, now, out);
      QueueSameStages(s, SetJob(s, k, out), now, s');
    }
  }

  lemma CancelsSameStages(s: Store, k: string, now: int, s': Store)
    requires Valid(s) && Cancels(s, k, now, s')
    ensures SameStages(s, s')
  {
    hide Sound, SchedulesQueue;
    if s' != s {
      QueueSameStages(s, SetJob(s, k, CanceledByOperator(s.jobs[k], now)), now, s');
    }
  }

  /** Every operation but a create, a stage move and a coordinator's close leaves the set of jobs, their CDIP
      states and the way they ended alone. */
  lemma OthersKeepStages(s: Store, op: Op, now: int, s': Store)
    requires Valid(s) && Step(s, op, now, s')
    requires !op.Create? && !op.CreateBatch? && !op.MoveStage? && !op.Close?
    ensures SameStages(s, s')
  {
    hide Valid, Completes, Cancels, ListsNodes, SchedulesQueue, FailsActiveJobs;
    if s' != s {
      match op
      case Register(node) => NodeSameStages(s, node, now, s');
      case Heartbeat(w, res) => RefreshSameStages(s, w, res, now, s');
      case MarkOffline(w) => OfflineSameStages(s, w, now, s');
      case Nodes => ListingSameStages(s, now, s');
      case Complete(k, rep) => CompletesSameStages(s, k, rep, now, s');
      case Cancel(k) => CancelsSameStages(s, k, now, s');
      case _ =>
    }
  }

  lemma RefreshSameStages(s: Store, w: string, res: Resources, now: int, s': Store)
    requires Valid(s) && w in s.nodes && SchedulesQueue(Refreshed(s, w, res, now), now, s')
    ensures SameStages(s, s')
  {
    hide Sound, SchedulesQueue;
    QueueSameStages(s, Refreshed(s, w, res, now), now, s');
  }

  /** Only a stage move touches a job's CDIP state. */
  lemma OnlyStageMovesTouchCdip(s: Store, op: Op, now: int, s': Store, id: string)
    requires Valid(s) && Step(s, op, now, s') && id in s.jobs
    requires op.MoveStage? ==> op.id != id
    ensures id in s'.jobs && s'.jobs[id].cdipState == s.jobs[id].cdipState
  {
    hide Valid, SchedulesQueue, Load, Creates, CreatesBatch;
    match op
    case Create(k, req) => CreatesKeeps(s, k, req, now, s');
    case CreateBatch(ids, reqs) => CreatesBatchKeeps(s, ids, reqs, now, s');
    case MoveStage(k, _, _) =>
    case Close(_, _, _) =>
    case _ => OthersKeepStages(s, op, now, s');
  }

  /** The operation rewrites how job `id` ended: a coordinator moves the stage to another CDIP end, or closes
      the distributed job with another outcome. */
  predicate RewritesEnd(s: Store, op: Op, id: string)
    requires id in s.jobs
  {
    match op
    case MoveStage(k, next, _) =>
      k == id && AcceptsStageState(s, id, next)
      && (next == Cdip.Completed || next == Cdip.Failed || next == Cdip.Aborted) && s.jobs[id].status != EndOf(next)
    case Close(k, _, error) =>
      k == id && AcceptsCoordinator(s, id) && s.jobs[id].status != if Blank(error) then Succeeded else Failed
    case _ => false
  }

  function EndOf(state: Cdip.StageState): Status {
    if state == Cdip.Completed then Succeeded else if state == Cdip.Failed then Failed else Canceled
  }

  /** A job that ended keeps its exact end status, except under exactly these two coordinator calls. */
  lemma EndIsRewrittenOnly(s: Store, op: Op, now: int, s': Store, id: string)
    requires Valid(s) && Step(s, op, now, s') && id in s.jobs && s.jobs[id].IsTerminal()
    ensures id in s'.jobs
    ensures s'.jobs[id].status != s.jobs[id].status <==> RewritesEnd(s, op, id)
  {
    hide Valid, SchedulesQueue, Load, Creates, CreatesBatch;
    match op
    case Create(k, req) => CreatesKeeps(s, k, req, now, s');
    case CreateBatch(ids, reqs) => CreatesBatchKeeps(s, ids, reqs, now, s');
    case MoveStage(_, _, _) =>
    case Close(_, _, _) =>
    case _ => OthersKeepStages(s, op, now, s');
  }

  /** A canceled distributed job that its coordinator closes becomes succeeded. */
  lemma CanceledCanSucceed() returns (s: Store, op: Op, s': Store)
    ensures Valid(s) && Step(s, op, 0, s')
    ensures "a" in s.jobs && s.jobs["a"].status == Canceled && "a" in s'.jobs && s'.jobs["a"].status == Succeeded
  {
    var none := Requirements(0, 0, 0, false, 0);
    var request := CreateRequest(JOB_DISTRIBUTED, RawInput(""), "", "", none, 1, true, Cdip.Unset, "", 0);
    s := Store(map[], map["a" := NewJob("a", request, 0).(status := Canceled)], map[]);
    op := Op.Close("a", "", "");
    s' := SetJob(s, "a", Closed(s.jobs["a"], "", "", 0));
  }

  // ----- drain -----

  /** A worker reported offline is left with nothing, and what it had goes only to workers that serve
      the job and have been heard from. */
  lemma OfflineDrains(s: Store, w: string, now: int, s': Store)
    requires Valid(s) && w in s.nodes && Step(s, MarkOffline(w), now, s')
    ensures s'.nodes.Keys == s.nodes.Keys && s'.jobs.Keys == s.jobs.Keys
    ensures Load(s', w) == 0 && s'.nodes[w].status == Offline
    ensures forall id :: id in s.jobs && s'.jobs[id] != s.jobs[id] && s'.jobs[id].IsActive() ==>
      s'.jobs[id].assignedTo != w && Fresh(s', s'.jobs[id].assignedTo, now)
    ensures forall id :: id in s.jobs && !s.jobs[id].ActiveOn(w) ==> s'.jobs[id] == s.jobs[id]
  {
    LosingKeeps(s, w, now, WENT_OFFLINE, s');
    forall id | id in s.jobs && !s.jobs[id].ActiveOn(w) ensures s'.jobs[id] == s.jobs[id] {
      assert FailTouch(s.jobs[id], s'.jobs[id], w);
    }
  }

  /** After the nodes are listed no worker is stored online past its timeout, every worker that timed out
      is empty, and so every active job sits on a worker heard from in time, but for stages that were already
      astray. */
  lemma ListingDrains(s: Store, now: int, s': Store)
    requires Valid(s) && Step(s, Nodes, now, s')
    ensures s'.nodes.Keys == s.nodes.Keys && s'.jobs.Keys == s.jobs.Keys
    ensures forall w :: w in s.nodes && Stale(s.nodes[w], now) ==> s'.nodes[w].status == Offline && Load(s', w) == 0
    ensures forall w :: w in s'.nodes ==> !Stale(s'.nodes[w], now)
    ensures forall id :: id in s'.jobs && s'.jobs[id].IsActive() ==>
      || IsHeardFrom(s', s'.jobs[id].assignedTo, now)
      || (s'.jobs[id].kind == JOB_STAGE && WasStray(s, id, s'.jobs[id].assignedTo))
  {
    hide Load, WithinSlots, Moves, Sound;
    ListsNodesKeeps(s, now, s');
    ListingStraysNobody(s, now, s');
    forall w | w in s'.nodes ensures !Stale(s'.nodes[w], now) {
      assert KeptOrDropped(s.nodes[w], s'.nodes[w], now);
    }
    forall id | id in s'.jobs && s'.jobs[id].IsActive() && !IsHeardFrom(s', s'.jobs[id].assignedTo, now)
      ensures s'.jobs[id].kind == JOB_STAGE && WasStray(s, id, s'.jobs[id].assignedTo)
    {
      assert Strays(s', s'.jobs[id]) && WellPlaced(s', s'.jobs[id]);
    }
  }

  predicate IsHeardFrom(s: Store, w: string, now: int) {
    IsOnline(s, w) && !Stale(s.nodes[w], now)
  }

  // ----- work conservation -----

  /** Time alone never makes a worker eligible. */
  lemma TimePasses(s: Store, now: int, later: int)
    requires WorkConserved(s, now) && now <= later
    ensures WorkConserved(s, later)
  {
    forall id | id in s.jobs ensures Stuck(s, id, later) {
      assert Stuck(s, id, now);
      forall w ensures Eligible(s, w, s.jobs[id].requirements, later) ==> Eligible(s, w, s.jobs[id].requirements, now) {
      }
    }
  }

  /** A waiting job would fit on the slot that worker `w` is about to free. */
  ghost predicate Wanted(s: Store, w: string, now: int) {
    && w in s.nodes && Load(s, w) <= Slots(s.nodes[w])
    && exists k :: k in s.jobs && s.jobs[k].IsWaiting() && Serves(s.nodes[w], s.jobs[k].requirements, now)
  }

  /** Ending an active job without offering the queue conserves work exactly when nobody wants its slot. */
  lemma FreeingConservesWork(s: Store, id: string, job: Job, now: int)
    requires id in s.jobs && s.jobs[id].IsActive() && job.IsTerminal() && WorkConserved(s, now)
    ensures WorkConserved(SetJob(s, id, job), now) <==> !Wanted(s, s.jobs[id].assignedTo, now)
  {
    var s', w := SetJob(s, id, job), s.jobs[id].assignedTo;
    forall v ensures Load(s', v) == Load(s, v) - One(v == w) {
      LoadAfter(s, id, job, v);
    }
    forall k | k in s'.jobs && s'.jobs[k].IsWaiting()
      ensures Stuck(s', k, now) <==>
        !(w in s.nodes && Load(s, w) <= Slots(s.nodes[w]) && Serves(s.nodes[w], s.jobs[k].requirements, now))
    {
      assert Stuck(s, k, now);
      var req := s.jobs[k].requirements;
      forall v ensures Eligible(s', v, req, now) <==>
        v == w && w in s.nodes && Load(s, w) <= Slots(s.nodes[w]) && Serves(s.nodes[w], req, now) {
        assert !Eligible(s, v, req, now);
      }
      assert Eligible(s', w, req, now) <==>
        w in s.nodes && Load(s, w) <= Slots(s.nodes[w]) && Serves(s.nodes[w], req, now);
    }
  }

  /** A change that frees no slot and leaves nothing new waiting keeps work conserved. */
  lemma HoldingConservesWork(s: Store, id: string, job: Job, now: int)
    requires id in s.jobs && WorkConserved(s, now)
    requires s.jobs[id].IsActive() ==> job.ActiveOn(s.jobs[id].assignedTo)
    requires job.IsWaiting() ==> s.jobs[id].IsWaiting() && job.requirements == s.jobs[id].requirements
    ensures WorkConserved(SetJob(s, id, job), now)
  {
    var s' := SetJob(s, id, job);
    forall v ensures Load(s, v) <= Load(s', v) {
      LoadAfter(s, id, job, v);
    }
    forall k | k in s'.jobs ensures Stuck(s', k, now) {
      assert Stuck(s, k, now);
      forall v ensures Eligible(s', v, s'.jobs[k].requirements, now) ==> Eligible(s, v, s'.jobs[k].requirements, now) {
      }
    }
  }

  /** The batch holds a request that may hide its job from the workers. */
  predicate MayBypass(req: CreateRequest) {
    if req.noAutoAssign then req.assignedTo == "" else req.assignedTo != ""
  }

  /** The operation can leave a job waiting although a worker could take it. */
  ghost predicate Disturbs(s: Store, op: Op, now: int) {
    match op
    case Create(_, req) => Bypasses(s, req, now)
    case CreateBatch(_, reqs) => exists i :: 0 <= i < |reqs| && MayBypass(reqs[i])
    case MoveStage(id, next, _) =>
      && AcceptsStageState(s, id, next) && s.jobs[id].IsActive()
      && next in {Cdip.Completed, Cdip.Failed, Cdip.Aborted} && Wanted(s, s.jobs[id].assignedTo, now)
    case Close(id, _, _) =>
      AcceptsCoordinator(s, id) && s.jobs[id].IsActive() && Wanted(s, s.jobs[id].assignedTo, now)
    case _ => false
  }

  /** The operation offers the whole queue to the workers. */
  predicate Settles(s: Store, op: Op) {
    match op
    case Register(_) => true
    case Heartbeat(w, _) => w in s.nodes
    case Complete(id, rep) => AcceptsReport(s, id, rep)
    case Cancel(id) => id in s.jobs && !s.jobs[id].IsTerminal()
    case _ => false
  }

  /** After a worker joins or reports, or a job is finished, failed or canceled, nobody waits for a worker
      that could take the job. */
  lemma SettlingConservesWork(s: Store, op: Op, now: int, s': Store)
    requires Valid(s) && Step(s, op, now, s') && Settles(s, op)
    ensures WorkConserved(s', now)
  {
    hide Load, Makes, Sound, Moves;
    match op
    case Register(node) => OnlineNodeThenQueue(s, node, now, s');
    case Heartbeat(w, res) => OnlineNodeThenQueue(s, Refreshed(s, w, res, now).nodes[w], now, s');
    case Complete(id, rep) => CompletesKeeps(s, id, rep, now, s');
    case Cancel(id) => CancelsKeeps(s, id, now, s');
  }

  lemma {:induction false} BatchConservesWork(s: Store, ids: seq<string>, reqs: seq<CreateRequest>, now: int, s': Store)
    requires |ids| == |reqs| && Valid(s) && CreatesBatch(s, ids, reqs, now, s') && WorkConserved(s, now)
    requires forall i :: 0 <= i < |ids| ==> ids[i] != "" && ids[i] !in s.jobs
    requires forall i, j :: 0 <= i < j < |ids| ==> ids[i] != ids[j]
    requires forall i :: 0 <= i < |reqs| ==> !MayBypass(reqs[i])
    ensures WorkConserved(s', now)
    decreases |ids|
  {
    hide Load, Valid, Stuck;
    if ids != [] {
      var m: Store :| CreatesBatch(s, Init(ids), Init(reqs), now, m) && Creates(m, Last(ids), Last(reqs), now, s');
      CreatesBatchKeeps(s, Init(ids), Init(reqs), now, m);
      BatchConservesWork(s, Init(ids), Init(reqs), now, m);
      assert Last(ids) !in m.jobs;
      CreatesConservesWork(m, Last(ids), Last(reqs), now, s');
    }
  }

  /** Job `id` is one of the batch's own, made by a request that may hide it. */
  predicate HiddenBy(ids: seq<string>, reqs: seq<CreateRequest>, id: string)
    requires |ids| == |reqs|
  {
    exists i :: 0 <= i < |ids| && ids[i] == id && MayBypass(reqs[i])
  }

  lemma {:induction false} OnlyHiddenWait(
      s: Store, ids: seq<string>, reqs: seq<CreateRequest>, now: int, s': Store, id: string)
    requires |ids| == |reqs| && Valid(s) && CreatesBatch(s, ids, reqs, now, s') && WorkConserved(s, now)
    requires forall i :: 0 <= i < |ids| ==> ids[i] != "" && ids[i] !in s.jobs
    requires forall i, j :: 0 <= i < j < |ids| ==> ids[i] != ids[j]
    requires id in s'.jobs && !HiddenBy(ids, reqs, id)
    ensures Stuck(s', id, now)
    decreases |ids|
  {
    hide Load, Valid, Eligible;
    if ids == [] {
      assert Stuck(s, id, now);
    } else {
      var m: Store :| CreatesBatch(s, Init(ids), Init(reqs), now, m) && Creates(m, Last(ids), Last(reqs), now, s');
      CreatesBatchKeeps(s, Init(ids), Init(reqs), now, m);
      var last, req := Last(ids), Last(reqs);
      assert last !in m.jobs;
      var job :| Places(m, last, req, now, job) && s' == SetJob(m, last, job);
      PlacesWell(m, last, req, now, job);
      NewJobAddsNoRoom(m, last, job, s'.jobs[id].requirements, now);
      if id == last {
        assert !MayBypass(req);
      } else {
        assert !HiddenBy(Init(ids), Init(reqs), id);
        OnlyHiddenWait(s, Init(ids), Init(reqs), now, m, id);
      }
    }
  }

  /** A batch keeps work conserved if and only if none of its own bypassing requests ends up waiting for a worker that
      could take its job; which of them do depends on the slots that the rest of the batch takes. */
  lemma BatchConservesWorkExactlyWhen(s: Store, ids: seq<string>, reqs: seq<CreateRequest>, now: int, s': Store)
    requires |ids| == |reqs| && Valid(s) && CreatesBatch(s, ids, reqs, now, s') && WorkConserved(s, now)
    requires forall i :: 0 <= i < |ids| ==> ids[i] != "" && ids[i] !in s.jobs
    requires forall i, j :: 0 <= i < j < |ids| ==> ids[i] != ids[j]
    ensures WorkConserved(s', now) <==> forall id :: id in s'.jobs && HiddenBy(ids, reqs, id) ==> Stuck(s', id, now)
  {
    hide Valid, CreatesBatch, Stuck, HiddenBy;
    forall id | id in s'.jobs && !HiddenBy(ids, reqs, id) ensures Stuck(s', id, now) {
      OnlyHiddenWait(s, ids, reqs, now, s', id);
    }
  }

  /** A batch that ends with a bypassing request always leaves that job waiting in vain. */
  lemma LastBypassDisturbs(s: Store, ids: seq<string>, reqs: seq<CreateRequest>, now: int, m: Store, s': Store)
    requires |ids| == |reqs| > 0 && Last(ids) !in m.jobs
    requires CreatesBatch(s, Init(ids), Init(reqs), now, m) && Creates(m, Last(ids), Last(reqs), now, s')
    requires Bypasses(m, Last(reqs), now)
    ensures CreatesBatch(s, ids, reqs, now, s') && !WorkConserved(s', now)
  {
    hide Load, CreatesBatch;
    var id, req := Last(ids), Last(reqs);
    var job :| Places(m, id, req, now, job) && s' == SetJob(m, id, job);
    PlacesWell(m, id, req, now, job);
    NewJobAddsNoRoom(m, id, job, req.requirements, now);
    assert !Stuck(s', id, now);
    BatchGrows(s, ids, reqs, now, m, s');
  }

  lemma BatchGrows(s: Store, ids: seq<string>, reqs: seq<CreateRequest>, now: int, m: Store, s': Store)
    requires |ids| == |reqs| > 0
    requires CreatesBatch(s, Init(ids), Init(reqs), now, m) && Creates(m, Last(ids), Last(reqs), now, s')
    ensures CreatesBatch(s, ids, reqs, now, s')
  {
    hide Creates;
  }

  /** Which operations keep work conserved: all that do not disturb it; and, batches aside, only those. */
  lemma StepConservesWork(s: Store, op: Op, now: int, s': Store)
    requires Valid(s) && Step(s, op, now, s') && WorkConserved(s, now)
    ensures !Disturbs(s, op, now) ==> WorkConserved(s', now)
    ensures !op.CreateBatch? && Disturbs(s, op, now) ==> !WorkConserved(s', now)
  {
    hide Load, Makes, Sound, Moves, Stuck, Wanted;
    if Settles(s, op) {
      SettlingConservesWork(s, op, now, s');
    } else {
      match op
      case MarkOffline(w) =>
        if w in s.nodes {
          LosingConservesWork(s, w, now, WENT_OFFLINE, s');
        }
      case Nodes =>
        var order :| IsOrder(order, s.nodes.Keys) && NodeVisits(s, order, now, s');
        NodeVisitsConserveWork(s, order, now, s');
      case Create(id, req) => CreatesConservesWork(s, id, req, now, s');
      case CreateBatch(ids, reqs) =>
        if !Disturbs(s, op, now) {
          BatchConservesWork(s, ids, reqs, now, s');
        }
      case NextJob(w) =>
        if s' != s {
          var id :| id in s.jobs && s.jobs[id].status == Scheduled && s' == SetJob(s, id, Started(s.jobs[id], now));
          HoldingConservesWork(s, id, Started(s.jobs[id], now), now);
        }
      case Progress(id, w, caption) =>
        if s' != s {
          HoldingConservesWork(s, id, Progressed(s.jobs[id], caption, now), now);
        }
      case MoveStage(id, next, detail) =>
        if AcceptsStageState(s, id, next) {
          StageMoveConservesWork(s, id, next, detail, now);
        }
      case Close(id, result, error) =>
        if AcceptsCoordinator(s, id) {
          CloseConservesWork(s, id, result, error, now);
        }
      case Benchmark(scores) => BenchmarkConservesWork(s, scores, now);
      case _ =>
    }
  }

  /** A stage that completes on the only worker leaves the job that waits for it waiting. */
  lemma FreedSlotCanIdle() returns (s: Store, op: Op, s': Store)
    ensures Valid(s) && Step(s, op, 0, s')
    ensures WorkConserved(s, 0) && !WorkConserved(s', 0)
  {
    hide Valid, WorkConserved, OneBusyWorker, Load, Wanted, Disturbs, AcceptsStageState;
    s := OneBusyWorker();
    op := MoveStage("a", Cdip.Completed, "");
    OneBusyWorkerIsFull();
    CompletingDisturbs();
    s' := SetJob(s, "a", StageMoved(s.jobs["a"], Cdip.Completed, "", 0));
    StepConservesWork(s, op, 0, s');
  }

  lemma CompletingDisturbs()
    ensures Disturbs(OneBusyWorker(), MoveStage("a", Cdip.Completed, ""), 0)
    ensures "a" in OneBusyWorker().jobs && AcceptsStageState(OneBusyWorker(), "a", Cdip.Completed)
  {
    hide Load;
    var s := OneBusyWorker();
    OneBusyWorkerIsFull();
    assert "b" in s.jobs && s.jobs["b"].IsWaiting();
  }

  function OneBusyWorker(): Store {
    var none := Requirements(0, 0, 0, false, 0);
    var stage := CreateRequest(JOB_STAGE, RawInput(""), "", "w", none, 1, true, Cdip.Decode, "p", 0);
    var waiting := CreateRequest("echo", RawInput(""), "", "", none, 1, false, Cdip.Unset, "", 0);
    Store(
      map["w" := Node("w", "w", Worker, Online, "", Resources(1, 1, [], 1, 1, 1), 0, 0)],
      map["a" := NewJob("a", stage, 0).(assignedTo := "w", status := Running, attempts := 1),
          "b" := NewJob("b", waiting, 0)], map[])
  }

  lemma OneBusyWorkerIsFull()
    ensures Valid(OneBusyWorker()) && WorkConserved(OneBusyWorker(), 0) && Load(OneBusyWorker(), "w") == 1
  {
    assert ActiveSet(OneBusyWorker().jobs, "w") == {"a"};
  }

  lemma StageMoveConservesWork(s: Store, id: string, next: Cdip.StageState, detail: string, now: int)
    requires AcceptsStageState(s, id, next) && WorkConserved(s, now)
    ensures WorkConserved(SetJob(s, id, StageMoved(s.jobs[id], next, detail, now)), now)
      <==> !Disturbs(s, MoveStage(id, next, detail), now)
  {
    hide Load, Stuck, Wanted;
    var job := StageMoved(s.jobs[id], next, detail, now);
    if s.jobs[id].IsActive() && next in {Cdip.Completed, Cdip.Failed, Cdip.Aborted} {
      FreeingConservesWork(s, id, job, now);
    } else {
      BlankEmpty();
      HoldingConservesWork(s, id, job, now);
    }
  }

  lemma CloseConservesWork(s: Store, id: string, result: string, error: string, now: int)
    requires AcceptsCoordinator(s, id) && WorkConserved(s, now)
    ensures WorkConserved(SetJob(s, id, Closed(s.jobs[id], result, error, now)), now)
      <==> !Disturbs(s, Op.Close(id, result, error), now)
  {
    hide Load, Stuck, Wanted;
    var job := Closed(s.jobs[id], result, error, now);
    if s.jobs[id].IsActive() {
      FreeingConservesWork(s, id, job, now);
    } else {
      HoldingConservesWork(s, id, job, now);
    }
  }

  lemma BenchmarkConservesWork(s: Store, scores: map<string, real>, now: int)
    requires WorkConserved(s, now)
    ensures WorkConserved(s.(scores := scores), now)
  {
    var s' := s.(scores := scores);
    forall id | id in s'.jobs ensures Stuck(s', id, now) {
      assert Stuck(s, id, now);
      forall w ensures Eligible(s', w, s.jobs[id].requirements, now) ==> Eligible(s, w, s.jobs[id].requirements, now) {
      }
    }
  }

  /** Excluding the failed worker lasts only for the first pick. When no other worker can take the failed
      job and nothing else waits, the same call hands it straight back to the worker that failed it. */
  lemma FailedJobReturns(s: Store, id: string, rep: Report, now: int, s': Store)
    requires Valid(s) && Step(s, Complete(id, rep), now, s') && AcceptsReport(s, id, rep) && rep.error != ""
    requires s.jobs[id].attempts < s.jobs[id].maxAttempts
    requires forall v :: v != rep.nodeId ==> !Eligible(s, v, s.jobs[id].requirements, now)
    requires forall k :: k in s.jobs ==> !s.jobs[k].IsWaiting()
    requires rep.nodeId in s.nodes && Load(s, rep.nodeId) <= Slots(s.nodes[rep.nodeId])
    requires Serves(s.nodes[rep.nodeId], s.jobs[id].requirements, now)
    ensures id in s'.jobs && s'.jobs[id].status == Scheduled && s'.jobs[id].assignedTo == rep.nodeId
  {
    hide Load, Serves, OnlinePlaced, SchedulesQueue, Reschedules;
    var j, w := s.jobs[id], rep.nodeId;
    var out :| Reschedules(s, Reported(j, rep, now), w, now, rep.error, out)
      && SchedulesQueue(SetJob(s, id, out), now, s');
    RequeuedWhenAlone(s, Reported(j, rep, now), w, now, rep.error, out);
    QueueConservesWork(SetJob(s, id, out), now, s');
    LeavesOneTaker(s, id, out, now);
    OnlyWaiterServed(SetJob(s, id, out), id, w, now, s');
  }

  /** Once its slot is freed, the worker that held the requeued job is the only one that can take it. */
  lemma LeavesOneTaker(s: Store, id: string, out: Job, now: int)
    requires id in s.jobs && s.jobs[id].IsActive() && !out.IsActive()
    requires var w := s.jobs[id].assignedTo;
      w in s.nodes && Load(s, w) <= Slots(s.nodes[w]) && Serves(s.nodes[w], out.requirements, now)
    requires forall v :: v != s.jobs[id].assignedTo ==> !Eligible(s, v, out.requirements, now)
    ensures forall v :: Eligible(SetJob(s, id, out), v, out.requirements, now) <==> v == s.jobs[id].assignedTo
  {
    hide Load, Serves;
    var w := s.jobs[id].assignedTo;
    forall v ensures Eligible(SetJob(s, id, out), v, out.requirements, now) <==> v == w {
      LoadAfter(s, id, out, v);
      assert v != w ==> !Eligible(s, v, out.requirements, now);
    }
  }

  lemma RequeuedWhenAlone(s: Store, j: Job, w: string, now: int, reason: string, out: Job)
    requires WellKeyed(s) && Sound(j) && j.ActiveOn(w) && Reschedules(s, j, w, now, reason, out)
    requires j.attempts < j.maxAttempts && forall v :: v != w ==> !Eligible(s, v, j.requirements, now)
    ensures out.IsWaiting() && out.id == j.id && out.requirements == j.requirements
  {
  }

  /** A lone waiting job that only one worker can take goes to that worker. */
  lemma OnlyWaiterServed(s: Store, id: string, w: string, now: int, s': Store)
    requires id in s.jobs && s.jobs[id].IsWaiting()
    requires forall k :: k in s.jobs && s.jobs[k].IsWaiting() ==> k == id
    requires QueueEffect(s, now, s') && WorkConserved(s', now)
    requires forall v :: Eligible(s, v, s.jobs[id].requirements, now) <==> v == w
    ensures s'.jobs[id].status == Scheduled && s'.jobs[id].assignedTo == w
  {
    hide Load, Serves;
    forall k | k in s.jobs && k != id ensures s'.jobs[k] == s.jobs[k] {
      assert QueueTouch(s.jobs[k], s'.jobs[k]);
    }
    var j' := s'.jobs[id];
    assert QueueTouch(s.jobs[id], j');
    assert s'.jobs == SetJob(s, id, j').jobs;
    var v := if j'.IsWaiting() then w else j'.assignedTo;
    LoadAfter(s, id, j', v);
    SameJobsSameLoad(SetJob(s, id, j'), s', v);
    if j'.IsWaiting() {
      assert Eligible(s, w, s.jobs[id].requirements, now);
      assert Stuck(s', id, now) && !Eligible(s', w, s.jobs[id].requirements, now);
    } else {
      assert Load(s', v) <= Max(Load(s, v), SlotsOf(s, v));
      assert Eligible(s, v, s.jobs[id].requirements, now);
    }
  }
}
