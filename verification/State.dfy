/** The manager's state object. Every public method is one atomic operation: it refines its step relation,
    whatever order the maps are iterated in, and keeps the state valid. */
module ManagerState {
  import opened Options
  import opened Text
  import opened Jobs
  import opened Scheduler
  import LoopFacts
  import StepFacts
  import Runs
  import Cdip
  import opened Promises

  class State {
    var nodes: map<string, Node>
    var jobs: map<string, Job>
    var scores: map<string, real>

    ghost function View(): Store
      reads this
    {
      Store(nodes, jobs, scores)
    }

    ghost predicate Valid()
      reads this
    {
      StepFacts.Valid(View())
    }

    constructor ()
      ensures Valid() && View() == Store(map[], map[], map[])
    {
      nodes, jobs, scores := map[], map[], map[];
    }

    // ----- reading -----

    /** Counts the worker's scheduled and running jobs one by one. */
    method ActiveJobs(w: string) returns (active: nat)
      ensures active == Load(View(), w)
    {
      active := 0;
      var pending := jobs.Keys;
      assert ActiveSet(jobs, w) * pending == ActiveSet(jobs, w);
      while pending != {}
        invariant pending <= jobs.Keys
        invariant active + |ActiveSet(jobs, w) * pending| == |ActiveSet(jobs, w)|
        decreases pending
      {
        var id :| id in pending;
        var left := pending - {id};
        assert ActiveSet(jobs, w) * pending == ActiveSet(jobs, w) * left + if jobs[id].ActiveOn(w) then {id} else {};
        pending := left;
        if jobs[id].assignedTo == w && (jobs[id].status == Scheduled || jobs[id].status == Running) {
          active := active + 1;
        }
      }
      assert ActiveSet(jobs, w) * pending == {};
    }

    /** Scans every worker and keeps the best eligible one seen so far. */
    method PickWorker(req: Requirements, excluded: set<string>, now: int) returns (best: string)
      requires WellKeyed(View())
      ensures IsPick(View(), req, excluded, now, best)
      ensures IsBestWorker(View(), req, excluded, now, best)
    {
      best := "";
      var bestScore := 0.0;
      var pending := nodes.Keys;
      while pending != {}
        invariant pending <= nodes.Keys
        invariant best == "" ==> forall v :: v in nodes.Keys - pending - excluded ==> !Eligible(View(), v, req, now)
        invariant best != "" ==>
          && best !in excluded && Eligible(View(), best, req, now) && bestScore == Score(View(), best)
          && forall v :: v in nodes.Keys - pending - excluded && Eligible(View(), v, req, now) ==>
               Score(View(), v) <= bestScore
        decreases pending
      {
        var w :| w in pending;
        pending := pending - {w};
        if w !in excluded && Serves(nodes[w], req, now) {
          var active := ActiveJobs(w);
          var score := if w in scores then scores[w] else 0.0;
          if active < Slots(nodes[w]) && (best == "" || score > bestScore) {
            best, bestScore := w, score;
          }
        }
      }
      PickMeans(View(), req, excluded, now, best);
    }

    method CanAccept(w: string, req: Requirements, now: int) returns (ok: bool)
      ensures ok <==> Eligible(View(), w, req, now)
      ensures ok <==> CanTake(View(), w, req, now)
    {
      EligibleMeans(View(), w, req, now);
      if w !in nodes {
        return false;
      }
      var active := ActiveJobs(w);
      return Serves(nodes[w], req, now) && active < Slots(nodes[w]);
    }

    method FindWaitingReason(req: Requirements, now: int) returns (reason: string)
      ensures reason == WaitingReason(View(), req, now)
      ensures reason == WaitNote(View(), req, now)
    {
      WaitNoteMeans(View(), req, now);
      var pending := nodes.Keys;
      while pending != {}
        invariant pending <= nodes.Keys
        invariant forall w :: w in nodes.Keys - pending ==> !Serves(nodes[w], req, now)
        decreases pending
      {
        var w :| w in pending;
        pending := pending - {w};
        if Serves(nodes[w], req, now) {
          return NO_CAPACITY;
        }
      }
      return NOT_CAPABLE;
    }

    // ----- the two loops over the jobs -----

    /** Dispatches one job if it waits and some worker can take it; notes why if none can. */
    method VisitQueued(id: string, now: int)
      requires WellKeyed(View()) && id in jobs
      modifies this`jobs
      ensures QueueVisit(old(View()), id, now, View())
      ensures WellKeyed(View()) && jobs.Keys == old(jobs.Keys)
      ensures old(jobs)[id].status == Queued && old(jobs)[id].assignedTo == "" ==>
        IsOffered(old(View()), old(jobs)[id], jobs[id], now)
    {
      hide Eligible, IsPick, WaitingReason;
      var job := jobs[id];
      if job.status == Queued && job.assignedTo == "" {
        var w := PickWorker(job.requirements, {}, now);
        if w == "" {
          var reason := FindWaitingReason(job.requirements, now);
          jobs := jobs[id := LeftWaiting(job, reason, now)];
        } else {
          jobs := jobs[id := DispatchedTo(job, w, now)];
        }
        OfferMeans(old(View()), id, now, View());
      }
    }

    /** Offers every queued, unassigned job to the workers. */
    method ScheduleQueuedJobs(now: int)
      requires WellKeyed(View())
      modifies this`jobs
      ensures SchedulesQueue(old(View()), now, View())
      ensures jobs.Keys == old(jobs.Keys) && forall id :: id in jobs ==> IsOfferedOnce(old(jobs)[id], jobs[id], now)
    {
      hide QueueVisit, WellKeyed, IsOfferedOnce, IsOffered;
      var pending := jobs.Keys;
      ghost var order: seq<string> := [];
      while pending != {}
        invariant jobs.Keys == old(jobs.Keys) && pending <= jobs.Keys && WellKeyed(View())
        invariant IsOrder(order, jobs.Keys - pending)
        invariant QueueVisits(old(View()), order, now, View())
        decreases pending
      {
        var id :| id in pending;
        pending := pending - {id};
        VisitQueued(id, now);
        assert Init(order + [id]) == order && Last(order + [id]) == id;
        order := order + [id];
      }
      QueueOffersAllOnce(old(View()), now, View());
    }

    /** What becomes of a job its worker failed. */
    method RescheduleOrFail(job: Job, failed: string, now: int, reason: string) returns (out: Job)
      requires WellKeyed(View())
      ensures Reschedules(View(), job, failed, now, reason, out) && out.id == job.id
      ensures IsRetried(View(), job, failed, now, reason, out)
    {
      var j := Normalized(job);
      if j.attempts < j.maxAttempts {
        var w := PickWorker(j.requirements, {failed}, now);
        out := Retried(j, w, now, reason);
      } else {
        out := GivenUp(j, now, reason);
      }
      RetryMeans(View(), job, failed, now, reason, out);
    }

    /** Reschedules or fails every active job of worker `w`. */
    method FailActiveJobs(w: string, now: int, reason: string)
      requires WellKeyed(View())
      modifies this`jobs
      ensures FailsActiveJobs(old(View()), w, now, reason, View())
      ensures WellKeyed(View())
    {
      hide Reschedules, IsRetried;
      var pending := jobs.Keys;
      ghost var order: seq<string> := [];
      while pending != {}
        invariant jobs.Keys == old(jobs.Keys) && pending <= jobs.Keys && WellKeyed(View())
        invariant IsOrder(order, jobs.Keys - pending)
        invariant FailVisits(old(View()), order, w, now, reason, View())
        decreases pending
      {
        var id :| id in pending;
        pending := pending - {id};
        ghost var before := View();
        if jobs[id].ActiveOn(w) {
          var out := RescheduleOrFail(jobs[id], w, now, reason);
          jobs := jobs[id := out];
        }
        assert FailVisit(before, id, w, now, reason, View());
        assert Init(order + [id]) == order && Last(order + [id]) == id;
        order := order + [id];
      }
    }

    // ----- workers -----

    method RegisterWorker(id: string, name: string, endpoint: string, res: Resources, now: int)
      requires Valid() && id != "" && id !in nodes
      modifies this
      ensures Valid() && Step(old(View()), Register(JoinedNode(id, name, endpoint, res, now)), now, View())
      ensures LoopFacts.WorkConserved(View(), now)
      ensures nodes == old(nodes)[id := Node(id, name, Worker, Online, endpoint, res, now, now)]
    {
      var node := JoinedNode(id, name, endpoint, res, now);
      nodes := nodes[id := node];
      ScheduleQueuedJobs(now);
      Runs.StepKeeps(old(View()), Register(node), now, View());
      Runs.SettlingConservesWork(old(View()), Register(node), now, View());
    }

    method ReceiveHeartbeat(w: string, res: Resources, now: int) returns (known: bool)
      requires Valid()
      modifies this
      ensures Valid() && Step(old(View()), Heartbeat(w, res), now, View())
      ensures known <==> w in old(nodes)
      ensures known ==> LoopFacts.WorkConserved(View(), now)
      ensures nodes == if w !in old(nodes) then old(nodes)
        else old(nodes)[w := old(nodes)[w].(status := Online, resources := res, updatedAt := now)]
    {
      known := w in nodes;
      if known {
        nodes := nodes[w := nodes[w].(status := Online, resources := res, updatedAt := now)];
        ScheduleQueuedJobs(now);
        Runs.SettlingConservesWork(old(View()), Heartbeat(w, res), now, View());
      }
      Runs.StepKeeps(old(View()), Heartbeat(w, res), now, View());
    }

    method MarkWorkerOffline(w: string, now: int) returns (known: bool)
      requires Valid()
      modifies this
      ensures Valid() && Step(old(View()), MarkOffline(w), now, View())
      ensures known <==> w in old(nodes)
      ensures known ==> HasNothing(View(), w) && ChangedSayWhy(old(View()), View(), "worker went offline", now)
      ensures !known ==> jobs == old(jobs)
      ensures nodes == if w !in old(nodes) then old(nodes)
        else old(nodes)[w := old(nodes)[w].(status := Offline, updatedAt := now)]
    {
      known := w in nodes;
      if known {
        nodes := nodes[w := nodes[w].(status := Offline, updatedAt := now)];
        FailActiveJobs(w, now, WENT_OFFLINE);
        OfflineMeans(old(View()), w, now, View());
      }
      Runs.StepKeeps(old(View()), MarkOffline(w), now, View());
    }

    /** Takes one worker offline if its heartbeat timed out. */
    method VisitNode(w: string, now: int) returns (node: Node)
      requires WellKeyed(View()) && w in nodes
      modifies this
      ensures NodeVisit(old(View()), w, now, View()) && WellKeyed(View())
      ensures w in nodes && node == nodes[w] && nodes == old(nodes)[w := node]
      ensures node == Silenced(old(nodes)[w], now)
    {
      node := DeriveStatus(nodes[w], now);
      if nodes[w].status == Online && node.status == Offline {
        node := node.(updatedAt := now);
        nodes := nodes[w := node];
        FailActiveJobs(w, now, TIMED_OUT);
      }
    }

    /** Visits every node once, in the map's order, and lists it as it is afterwards. */
    method VisitNodes(now: int) returns (listed: seq<Node>, ghost order: seq<string>)
      requires WellKeyed(View())
      modifies this
      ensures NodeVisits(old(View()), order, now, View()) && nodes.Keys == old(nodes.Keys)
      ensures IsOrder(order, nodes.Keys) && |listed| == |order|
      ensures forall i :: 0 <= i < |order| ==> listed[i] == nodes[order[i]]
    {
      hide NodeVisit, WellKeyed;
      listed, order := [], [];
      var pending := nodes.Keys;
      while pending != {}
        invariant nodes.Keys == old(nodes.Keys) && pending <= nodes.Keys && WellKeyed(View())
        invariant IsOrder(order, nodes.Keys - pending)
        invariant NodeVisits(old(View()), order, now, View())
        invariant |listed| == |order|
        invariant forall i :: 0 <= i < |order| ==> order[i] in nodes.Keys - pending && listed[i] == nodes[order[i]]
        decreases pending
      {
        var w :| w in pending;
        pending := pending - {w};
        var node := VisitNode(w, now);
        assert Init(order + [w]) == order && Last(order + [w]) == w;
        order, listed := order + [w], listed + [node];
      }
    }

    /** Lists the workers with their derived status, taking the timed-out ones offline on the way. */
    method ListNodes(now: int) returns (listed: seq<Node>, ghost order: seq<string>)
      requires Valid()
      modifies this
      ensures Valid() && Step(old(View()), Nodes, now, View())
      ensures IsOrder(order, nodes.Keys) && |listed| == |order|
      ensures forall i :: 0 <= i < |order| ==> listed[i] == nodes[order[i]]
      ensures forall w :: w in old(nodes) && IsSilent(old(nodes)[w], now) ==> HasNothing(View(), w)
      ensures nodes.Keys == old(nodes.Keys) && forall w :: w in nodes ==> nodes[w] == Silenced(old(nodes)[w], now)
      ensures ChangedSayWhy(old(View()), View(), "worker heartbeat timed out", now)
    {
      listed, order := VisitNodes(now);
      ListingMeans(old(View()), now, View());
      Runs.StepKeeps(old(View()), Nodes, now, View());
    }

    // ----- jobs -----

    /** Stores the job of a create request, placed as the request asks. */
    method PlaceJob(id: string, req: CreateRequest, now: int) returns (job: Job)
      requires WellKeyed(View())
      modifies this`jobs
      ensures Creates(old(View()), id, req, now, View())
      ensures id in jobs && job == jobs[id] && Carries(job, id, req, now) && IsPlaced(old(View()), req, now, job)
    {
      hide IsPick, IsBestWorker, Eligible, CanTake, WaitingReason, WaitNote;
      job := NewJob(id, req, now);
      if req.noAutoAssign {
        job := job.(assignedTo := req.assignedTo, lastFailure := FOR_COORDINATOR);
      } else {
        var w := "";
        if req.assignedTo != "" {
          var ok := CanAccept(req.assignedTo, req.requirements, now);
          w := if ok then req.assignedTo else "";
        } else {
          w := PickWorker(req.requirements, {}, now);
        }
        if w != "" {
          job := FirstDispatch(job, w);
        } else {
          var reason := FindWaitingReason(req.requirements, now);
          job := job.(lastFailure := reason);
        }
      }
      assert Places(View(), id, req, now, job);
      PlacementMeans(View(), id, req, now, job);
      jobs := jobs[id := job];
    }

    method CreateJob(id: string, req: CreateRequest, now: int) returns (job: Job)
      requires Valid() && id != "" && id !in jobs
      modifies this
      ensures Valid() && Step(old(View()), Create(id, req), now, View())
      ensures jobs == old(jobs)[id := job] && Carries(job, id, req, now) && IsPlaced(old(View()), req, now, job)
    {
      job := PlaceJob(id, req, now);
      Runs.StepKeeps(old(View()), Create(id, req), now, View());
    }

    method CreateJobsBatch(ids: seq<string>, reqs: seq<CreateRequest>, now: int) returns (created: seq<Job>)
      requires Valid() && Mints(View(), CreateBatch(ids, reqs), now)
      modifies this
      ensures Valid() && Step(old(View()), CreateBatch(ids, reqs), now, View())
      ensures |created| == |ids| && forall i :: 0 <= i < |ids| ==> ids[i] in jobs && created[i] == jobs[ids[i]]
    {
      hide Places, IsPlaced, Carries, StepFacts.JobsMove;
      created := [];
      for i := 0 to |ids|
        invariant CreatesBatch(old(View()), ids[..i], reqs[..i], now, View())
        invariant StepFacts.Valid(View())
        invariant |created| == i && forall k :: 0 <= k < i ==> ids[k] in jobs && created[k] == jobs[ids[k]]
        invariant forall k :: i <= k < |ids| ==> ids[k] !in jobs
      {
        ghost var before := View();
        var job := PlaceJob(ids[i], reqs[i], now);
        StepFacts.CreatesKeeps(before, ids[i], reqs[i], now, View());
        assert Init(ids[..i + 1]) == ids[..i] && Last(ids[..i + 1]) == ids[i];
        assert Init(reqs[..i + 1]) == reqs[..i] && Last(reqs[..i + 1]) == reqs[i];
        created := created + [job];
      }
      assert ids[..|ids|] == ids && reqs[..|ids|] == reqs;
    }

    /** Hands the worker some job scheduled on it, if there is one. */
    method NextJobForWorker(w: string, now: int) returns (job: Option<Job>)
      requires Valid()
      modifies this`jobs
      ensures Valid() && Step(old(View()), NextJob(w), now, View())
      ensures job.None? <==> forall id :: id in old(jobs) ==>
        !(old(jobs)[id].assignedTo == w && old(jobs)[id].status == Scheduled)
      ensures job.Some? ==>
        && job.value.id in jobs && jobs[job.value.id] == job.value
        && job.value.assignedTo == w && job.value.status == Running
      ensures job.Some? ==> job.value.id in old(jobs) && old(jobs)[job.value.id].status == Scheduled
      ensures job.Some? ==> jobs == old(jobs)[job.value.id :=
        old(jobs)[job.value.id].(status := Running, startedAt := now, updatedAt := now)]
      ensures job.None? ==> jobs == old(jobs)
    {
      var pending := jobs.Keys;
      while pending != {}
        invariant pending <= jobs.Keys && jobs == old(jobs)
        invariant forall id :: id in jobs.Keys - pending ==> !(jobs[id].assignedTo == w && jobs[id].status == Scheduled)
        decreases pending
      {
        var id :| id in pending;
        pending := pending - {id};
        if jobs[id].assignedTo == w && jobs[id].status == Scheduled {
          var taken := Started(jobs[id], now);
          jobs := jobs[taken.id := taken];
          Runs.StepKeeps(old(View()), NextJob(w), now, View());
          return Some(taken);
        }
      }
      return None;
    }

    method CompleteJob(id: string, rep: Report, now: int) returns (job: Option<Job>)
      requires Valid()
      modifies this`jobs
      ensures Valid() && Step(old(View()), Complete(id, rep), now, View())
      ensures job.Some? <==>
        id in old(jobs) && old(jobs)[id].assignedTo == rep.nodeId && old(jobs)[id].status in {Running, Canceled}
      ensures AcceptsReport(old(View()), id, rep) ==>
        && ReportMakes(old(View()), id, rep, now, job.value)
        && LoopFacts.WorkConserved(View(), now)
      ensures AcceptsReport(old(View()), id, rep) && rep.error == "" ==>
        && id in jobs && jobs[id].status == Succeeded && jobs[id].error == ""
        && jobs[id].result == RawResult(if old(jobs)[id].kind == "model.delete" then rep.summary else rep.result)
      ensures !AcceptsReport(old(View()), id, rep) ==> jobs == old(jobs)
    {
      hide Eligible, Reschedules, IsRetried;
      if id !in jobs || jobs[id].assignedTo != rep.nodeId {
        return None;
      }
      if jobs[id].status == Canceled {
        return Some(jobs[id]);
      }
      if jobs[id].status != Running {
        return None;
      }
      var out;
      if rep.error != "" {
        out := RescheduleOrFail(Reported(jobs[id], rep, now), rep.nodeId, now, rep.error);
      } else {
        out := Finished(jobs[id], rep, now);
      }
      assert ReportMakes(old(View()), id, rep, now, out);
      jobs := jobs[id := out];
      assert View() == SetJob(old(View()), id, out);
      ScheduleQueuedJobs(now);
      Runs.StepKeeps(old(View()), Complete(id, rep), now, View());
      Runs.SettlingConservesWork(old(View()), Complete(id, rep), now, View());
      if rep.error == "" {
        SuccessIsRecorded(old(View()), id, rep, now, View());
      }
      return Some(out);
    }

    method UpdateJobProgress(id: string, w: string, caption: string, now: int) returns (ok: bool)
      requires Valid()
      modifies this`jobs
      ensures Valid() && Step(old(View()), Progress(id, w, caption), now, View())
      ensures ok <==> id in old(jobs) && old(jobs)[id].assignedTo == w && old(jobs)[id].status == Running
      ensures jobs == if !ok then old(jobs)
        else old(jobs)[id := old(jobs)[id].(result := ProgressNote(caption, now), updatedAt := now)]
    {
      ok := id in jobs && jobs[id].assignedTo == w && jobs[id].status == Running;
      if ok {
        jobs := jobs[id := Progressed(jobs[id], caption, now)];
      }
      Runs.StepKeeps(old(View()), Progress(id, w, caption), now, View());
    }

    method CancelJob(id: string, now: int) returns (ok: bool)
      requires Valid()
      modifies this`jobs
      ensures Valid() && Step(old(View()), Cancel(id), now, View())
      ensures ok <==> id in old(jobs) && !old(jobs)[id].IsTerminal()
      ensures ok ==> LoopFacts.WorkConserved(View(), now)
      ensures ok ==> id in jobs && jobs[id] == old(jobs)[id].(
        status := Canceled, error := "canceled by operator", lastFailure := "", updatedAt := now, finishedAt := now)
      ensures !ok ==> jobs == old(jobs)
    {
      ok := id in jobs && jobs[id].status in {Queued, Scheduled, Running};
      if ok {
        jobs := jobs[id := CanceledByOperator(jobs[id], now)];
        ScheduleQueuedJobs(now);
        Runs.SettlingConservesWork(old(View()), Cancel(id), now, View());
        CancelIsRecorded(old(View()), id, now, View());
      }
      Runs.StepKeeps(old(View()), Cancel(id), now, View());
    }

    method UpdateCdipStageState(id: string, next: Cdip.StageState, detail: string, now: int) returns (ok: bool)
      requires Valid()
      modifies this`jobs
      ensures Valid() && Step(old(View()), MoveStage(id, next, detail), now, View())
      ensures ok <==> AcceptsStageState(old(View()), id, next)
      ensures ok <==>
        && id in old(jobs) && old(jobs)[id].kind == "model.generate.distributed.stage"
        && MayBecome(old(jobs)[id].cdipState, next)
      ensures ok ==> id in jobs && jobs == old(jobs)[id := jobs[id]]
      ensures ok ==> RecordsMove(old(jobs)[id], jobs[id], next, detail, now)
      ensures !ok ==> jobs == old(jobs)
    {
      hide StepFacts.Valid, StepFacts.JobsMove, StepFacts.WithinSlots;
      ok := id in jobs && jobs[id].kind == JOB_STAGE && Cdip.CanTransition(Cdip.Current(jobs[id].cdipState), next);
      if ok {
        var job := jobs[id].(cdipState := next, result := StageNote(next, TrimSpace(detail), now), updatedAt := now);
        if next == Cdip.Preparing {
          if job.status == Queued && TrimSpace(job.assignedTo) != "" {
            job := job.(status := Scheduled, lastFailure := "");
            if job.attempts == 0 {
              job := job.(attempts := 1);
            }
          }
        } else if next == Cdip.Completed {
          job := job.(status := Succeeded, finishedAt := now);
        } else if next == Cdip.Failed {
          job := job.(status := Failed, error := TrimSpace(detail), finishedAt := now);
          job := job.(lastFailure := job.error);
        } else if next == Cdip.Aborted {
          job := job.(status := Canceled, error := TrimSpace(detail), finishedAt := now);
        }
        jobs := jobs[id := job];
      }
      Runs.StepKeeps(old(View()), MoveStage(id, next, detail), now, View());
      if id in old(jobs) && old(jobs)[id].kind == JOB_STAGE {
        StageMovesExactlyWhen(old(View()), id, next, detail, now, View());
        MayBecomeMeans(old(jobs)[id].cdipState, next);
      }
    }

    method CompleteCoordinatorJob(id: string, result: string, error: string, now: int) returns (ok: bool)
      requires Valid()
      modifies this`jobs
      ensures Valid() && Step(old(View()), Close(id, result, error), now, View())
      ensures ok <==> id in old(jobs) && old(jobs)[id].kind == "model.generate.distributed"
      ensures ok ==> id in jobs && jobs == old(jobs)[id := jobs[id]]
      ensures ok ==>
        && jobs[id].status == (if TrimSpace(error) != "" then Failed else Succeeded)
        && jobs[id].result == RawResult(TrimSpace(result)) && jobs[id].error == TrimSpace(error)
      ensures !ok ==> jobs == old(jobs)
    {
      ok := id in jobs && jobs[id].kind == JOB_DISTRIBUTED;
      if ok {
        var job := jobs[id].(
          result := RawResult(TrimSpace(result)), error := TrimSpace(error), updatedAt := now, finishedAt := now);
        if job.error != "" {
          job := job.(status := Failed, lastFailure := job.error);
        } else {
          job := job.(status := Succeeded);
        }
        jobs := jobs[id := job];
      }
      Runs.StepKeeps(old(View()), Close(id, result, error), now, View());
    }
  }
}
