/** Jobs created with automatic assignment off, which the scheduling loop was meant to leave to their coordinator. It
    looks only at whether a queued job names a worker. */
module Unassigned {
  import opened Jobs
  import opened Scheduler
  import opened Lifecycle
  import opened LoopFacts
  import opened StepFacts
  import opened History
  import opened Retry
  import Cdip

  predicate IsScheduled(s: Store, id: string) {
    id in s.jobs && s.jobs[id].status == Scheduled
  }

  // ----- what the loop dispatches -----

  /** Some pass of the scheduling loop dispatches a queued job if and only if the job names no worker and some worker
      can take it; how the job was created plays no part. */
  lemma QueueMayDispatchExactlyWhen(s: Store, id: string, now: int)
    requires WellKeyed(s) && id in s.jobs && s.jobs[id].status == Queued
    ensures (exists s' :: SchedulesQueue(s, now, s') && IsScheduled(s', id))
      <==> s.jobs[id].IsWaiting() && exists w :: Eligible(s, w, s.jobs[id].requirements, now)
  {
    hide SchedulesQueue, Eligible, WellKeyed;
    if s' :| SchedulesQueue(s, now, s') && IsScheduled(s', id) {
      DispatchNeedsWorker(s, id, now, s');
    }
    if s.jobs[id].IsWaiting() && exists w :: Eligible(s, w, s.jobs[id].requirements, now) {
      var s' := MayDispatch(s, id, now);
    }
  }

  lemma DispatchNeedsWorker(s: Store, id: string, now: int, s': Store)
    requires WellKeyed(s) && id in s.jobs && s.jobs[id].status == Queued
    requires SchedulesQueue(s, now, s') && IsScheduled(s', id)
    ensures s.jobs[id].IsWaiting() && Eligible(s, s'.jobs[id].assignedTo, s.jobs[id].requirements, now)
  {
    hide SchedulesQueue, Load, Serves;
    QueueConservesWork(s, now, s');
    assert QueueTouch(s.jobs[id], s'.jobs[id]);
    GainsWithinSlots(s, id, s'.jobs[id].assignedTo, now, s');
  }

  lemma MayDispatch(s: Store, id: string, now: int) returns (s': Store)
    requires WellKeyed(s) && id in s.jobs && s.jobs[id].IsWaiting()
    requires exists w :: Eligible(s, w, s.jobs[id].requirements, now)
    ensures SchedulesQueue(s, now, s') && IsScheduled(s', id)
  {
    hide SchedulesQueue, Eligible;
    var w := PickExists(s, s.jobs[id].requirements, {}, now);
    var m := SetJob(s, id, DispatchedTo(s.jobs[id], w, now));
    assert QueueVisit(s, id, now, m);
    s' := LoopGoesOn(s, id, m, now);
  }

  // ----- jobs created with automatic assignment off -----

  /** Such a job is left waiting for any worker if and only if its request names none. */
  lemma UnassignedWaits(s: Store, id: string, req: CreateRequest, now: int, s': Store)
    requires Creates(s, id, req, now, s') && req.noAutoAssign
    ensures id in s'.jobs && s'.jobs[id].status == Queued
    ensures s'.jobs[id].assignedTo == req.assignedTo
    ensures s'.jobs[id].IsWaiting() <==> req.assignedTo == ""
  {
    hide IsPick, Eligible;
  }

  /** The job waits for its coordinator on the worker it names. */
  predicate IsKept(j: Job, w: string) {
    j.status == Queued && j.assignedTo == w && w != "" && j.kind != JOB_STAGE
  }

  /** One that names a worker, and is no stage, is never dispatched: in every run it stays queued there until it is
      canceled or closed, without an attempt. */
  lemma {:induction false} NamedIsNeverDispatched(
      states: seq<Store>, ops: seq<Op>, nows: seq<int>, id: string, w: string, i: nat, k: nat)
    requires IsRun(states, ops, nows) && i <= k < |states|
    requires id in states[i].jobs && IsKept(states[i].jobs[id], w)
    ensures id in states[k].jobs && states[k].jobs[id].attempts == states[i].jobs[id].attempts
    ensures IsKept(states[k].jobs[id], w) || states[k].jobs[id].IsTerminal()
    decreases k - i
  {
    hide Step, Valid, Makes;
    if i < k {
      NamedIsNeverDispatched(states, ops, nows, id, w, i, k - 1);
      RunKeepsValid(states, ops, nows, k - 1);
      ValidIsSound(states[k - 1], id);
      var m :| Makes(m, states[k - 1].jobs[id], states[k].jobs[id]);
      KeptMove(m, states[k - 1].jobs[id], states[k].jobs[id], w);
    }
  }

  lemma KeptMove(m: Move, j: Job, j': Job, w: string)
    requires Makes(m, j, j') && Sound(j) && (IsKept(j, w) || j.IsTerminal())
    ensures j'.attempts == j.attempts
    ensures if IsKept(j, w) then IsKept(j', w) || j'.IsTerminal() else j'.IsTerminal()
  {
  }

  // ----- what a dispatched one costs -----

  /** A worker's error ends the job if and only if it has no attempt left. A distributed parent has one. */
  lemma ErrorEndsJobExactlyWhen(s: Store, id: string, rep: Report, now: int, s': Store)
    requires Valid(s) && ReportsFailure(s, id, rep) && Step(s, Complete(id, rep), now, s')
    ensures id in s'.jobs && (s'.jobs[id].status == Failed <==> s.jobs[id].attempts >= s.jobs[id].maxAttempts)
  {
    hide Load, Eligible, OnlinePlaced, SchedulesQueue, Reschedules;
    var j := Reported(s.jobs[id], rep, now);
    var out :| Reschedules(s, j, rep.nodeId, now, rep.error, out) && SchedulesQueue(SetJob(s, id, out), now, s');
    GivesUpExactlyWhen(s, j, rep.nodeId, now, rep.error, out);
    QueueConservesWork(SetJob(s, id, out), now, s');
    assert QueueTouch(out, s'.jobs[id]);
  }

  lemma GivesUpExactlyWhen(s: Store, j: Job, w: string, now: int, reason: string, out: Job)
    requires Sound(j) && j.IsActive() && Reschedules(s, j, w, now, reason, out)
    ensures out.id == j.id && (out.status == Failed <==> j.attempts >= j.maxAttempts)
  {
    hide IsPick;
    assert Normalized(j) == j;
  }

  // ----- it does happen -----

  /** A distributed parent is created with automatic assignment off and naming no worker; the next heartbeat hands it
      to the worker that sent it. */
  lemma ParentCanBeDispatched() returns (s: Store, req: CreateRequest, mid: Store, s': Store)
    ensures Valid(s) && req.kind == JOB_DISTRIBUTED && req.noAutoAssign && req.maxAttempts == 1
    ensures Step(s, Create("a", req), 0, mid) && Step(mid, Heartbeat("w", OneSlot()), 0, s')
    ensures IsScheduled(s', "a") && s'.jobs["a"].assignedTo == "w"
  {
    hide Valid, Load, SchedulesQueue;
    var none := Requirements(0, 0, 0, false, 0);
    req := CreateRequest(JOB_DISTRIBUTED, RawInput(""), "", "", none, 1, true, Cdip.Unset, "", 0);
    s := Idle();
    IdleIsValid();
    mid := SetJob(s, "a", NewJob("a", req, 0).(lastFailure := FOR_COORDINATOR));
    assert Places(s, "a", req, 0, mid.jobs["a"]);
    var met := Refreshed(mid, "w", OneSlot(), 0);
    IdleTakes(req, met);
    s' := MayDispatch(met, "a", 0);
    DispatchNeedsWorker(met, "a", 0, s');
  }

  function OneSlot(): Resources {
    Resources(1, 1, [], 1, 1, 1)
  }

  /** One worker with nothing to do. */
  function Idle(): Store {
    Store(map["w" := Node("w", "w", Worker, Online, "", OneSlot(), 0, 0)], map[], map[])
  }

  lemma IdleIsValid()
    ensures Valid(Idle())
  {
  }

  lemma IdleTakes(req: CreateRequest, met: Store)
    requires req.noAutoAssign && req.requirements == Requirements(0, 0, 0, false, 0)
    requires var parent := NewJob("a", req, 0).(lastFailure := FOR_COORDINATOR);
      met == Refreshed(SetJob(Idle(), "a", parent), "w", OneSlot(), 0)
    ensures WellKeyed(met) && Eligible(met, "w", req.requirements, 0)
    ensures forall w :: Eligible(met, w, req.requirements, 0) ==> w == "w"
  {
    assert ActiveSet(met.jobs, "w") == {};
  }
}
