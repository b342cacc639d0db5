/** What one operation does to every job, to the loads of the workers and to the queue. */
module StepFacts {
  import opened Jobs
  import opened Scheduler
  import opened Lifecycle
  import opened LoopFacts

  /** Every active job sits on a known worker stored as online. CDIP stage jobs are the exception: the
      coordinator makes them scheduled without looking at the worker. */
  ghost predicate OnlinePlaced(s: Store) {
    forall id :: id in s.jobs ==> WellPlaced(s, s.jobs[id])
  }

  predicate WellPlaced(s: Store, j: Job) {
    j.IsActive() && j.kind != JOB_STAGE ==> j.assignedTo in s.nodes && s.nodes[j.assignedTo].status == Online
  }

  ghost predicate Valid(s: Store) {
    WellKeyed(s) && AllSound(s) && OnlinePlaced(s)
  }

  /** How a job enters the state: waiting for someone, or already dispatched once. */
  predicate Born(j: Job) {
    && Sound(j)
    && (j.status == Queued || j.status == Scheduled)
    && j.attempts == One(j.status == Scheduled)
  }

  /** Every job makes one move; new jobs are born under their own key; none disappears. */
  ghost predicate JobsMove(s: Store, s': Store) {
    && (forall id :: id in s.jobs ==> id in s'.jobs && Moves(s.jobs[id], s'.jobs[id]))
    && (forall id :: id in s'.jobs && id !in s.jobs ==> Born(s'.jobs[id]) && s'.jobs[id].id == id && id != "")
  }

  /** No worker's load grew beyond its slots. */
  ghost predicate WithinSlots(s: Store, s': Store) {
    forall w :: Load(s', w) <= Max(Load(s, w), SlotsOf(s', w))
  }

  lemma MovesSound(j: Job, j': Job)
    requires Moves(j, j')
    ensures SameIdentity(j, j') && (Sound(j) ==> Sound(j'))
  {
    var m :| Makes(m, j, j');
    if Sound(j) {
      MoveFacts(m, j, j');
    }
  }

  lemma StayMoves(j: Job)
    ensures Moves(j, j)
  {
    assert Makes(Stay, j, j);
  }

  lemma JobsMoveSound(s: Store, s': Store)
    requires AllSound(s) && JobsMove(s, s')
    ensures AllSound(s')
  {
    forall id | id in s'.jobs ensures Sound(s'.jobs[id]) {
      if id in s.jobs {
        MovesSound(s.jobs[id], s'.jobs[id]);
      }
    }
  }

  // ----- one move per job -----

  lemma UnchangedMoves(s: Store)
    ensures JobsMove(s, s)
  {
    forall k | k in s.jobs ensures Moves(s.jobs[k], s.jobs[k]) {
      StayMoves(s.jobs[k]);
    }
  }

  lemma OneJobMoves(s: Store, id: string, job: Job)
    requires id in s.jobs && Moves(s.jobs[id], job)
    ensures JobsMove(s, SetJob(s, id, job))
  {
    forall k | k in s.jobs ensures Moves(s.jobs[k], SetJob(s, id, job).jobs[k]) {
      StayMoves(s.jobs[k]);
    }
  }

  /** What the queue may still do to a job that the operation has already moved. */
  lemma QueueAfterMove(m: Move, j: Job, mid: Job, j': Job)
    requires m in {Stay, Requeue, Redispatch, GiveUp, Succeed, CancelNow}
    requires m == Requeue ==> j.status == Running
    ensures Makes(m, j, mid) && QueueTouch(mid, j') ==> Moves(j, j')
  {
    if Makes(m, j, mid) && QueueTouch(mid, j') {
      MoveThenQueue(m, j, mid, if j'.status == mid.status then Stay else Dispatch, j');
    }
  }

  lemma QueueMoves(s: Store, now: int, s': Store)
    requires QueueEffect(s, now, s')
    ensures JobsMove(s, s')
  {
    forall id | id in s.jobs ensures Moves(s.jobs[id], s'.jobs[id]) {
      assert Makes(Stay, s.jobs[id], s.jobs[id]);
      QueueAfterMove(Stay, s.jobs[id], s.jobs[id], s'.jobs[id]);
    }
  }

  lemma ChangeThenQueueMoves(s: Store, id: string, m: Move, job: Job, now: int, s': Store)
    requires id in s.jobs && Makes(m, s.jobs[id], job)
    requires m in {Requeue, Redispatch, GiveUp, Succeed, CancelNow}
    requires m == Requeue ==> s.jobs[id].status == Running
    requires QueueEffect(SetJob(s, id, job), now, s')
    ensures JobsMove(s, s')
  {
    QueueMoves(SetJob(s, id, job), now, s');
    forall k | k in s.jobs ensures Moves(s.jobs[k], s'.jobs[k]) {
      if k == id {
        QueueAfterMove(m, s.jobs[k], job, s'.jobs[k]);
      } else {
        assert SetJob(s, id, job).jobs[k] == s.jobs[k];
      }
    }
  }

  lemma FailMoves(s: Store, w: string, now: int, s': Store)
    requires AllSound(s) && FailEffect(s, w, now, s')
    ensures JobsMove(s, s')
  {
    forall id | id in s.jobs ensures Moves(s.jobs[id], s'.jobs[id]) {
      FailTouchMoves(s.jobs[id], s'.jobs[id], w);
    }
  }

  // ----- placement on online workers -----

  lemma QueuePlaces(s: Store, now: int, s': Store)
    requires OnlinePlaced(s) && QueueEffect(s, now, s')
    ensures OnlinePlaced(s')
  {
    forall id | id in s'.jobs ensures WellPlaced(s', s'.jobs[id]) {
      assert WellPlaced(s, s.jobs[id]) && QueueTouch(s.jobs[id], s'.jobs[id]);
    }
  }

  lemma FailPlaces(s: Store, w: string, now: int, s': Store)
    requires forall id :: id in s.jobs && s.jobs[id].assignedTo != w ==> WellPlaced(s, s.jobs[id])
    requires FailEffect(s, w, now, s') && Load(s', w) == 0
    ensures OnlinePlaced(s')
  {
    forall id | id in s'.jobs ensures WellPlaced(s', s'.jobs[id]) {
      if s'.jobs[id].ActiveOn(w) {
        ActiveMeansLoad(s', id, w);
      }
      assert FailTouch(s.jobs[id], s'.jobs[id], w);
    }
  }

  // ----- the scheduling loop as a whole -----

  lemma QueueKeeps(s: Store, now: int, s': Store)
    requires Valid(s) && SchedulesQueue(s, now, s')
    ensures Valid(s') && JobsMove(s, s')
    ensures QueueEffect(s, now, s') && WorkConserved(s', now)
  {
    QueueConservesWork(s, now, s');
    QueueMoves(s, now, s');
    QueuePlaces(s, now, s');
    JobsMoveSound(s, s');
  }

  lemma QueueWithinSlots(s: Store, mid: Store, now: int, s': Store)
    requires WithinSlots(s, mid) && QueueEffect(mid, now, s')
    ensures WithinSlots(s, s')
  {
    hide Load;
    forall w ensures Load(s', w) <= Max(Load(s, w), SlotsOf(s', w)) {
      assert Load(mid, w) <= Max(Load(s, w), SlotsOf(mid, w));
      assert Load(s', w) <= Max(Load(mid, w), SlotsOf(mid, w));
    }
  }

  /** One job changed by a move, then the queue was offered to the workers. */
  lemma ChangeThenQueue(s: Store, id: string, m: Move, job: Job, now: int, s': Store)
    requires Valid(s) && id in s.jobs && Makes(m, s.jobs[id], job)
    requires m in {Requeue, Redispatch, GiveUp, Succeed, CancelNow}
    requires m == Requeue ==> s.jobs[id].status == Running
    requires WellPlaced(s, job)
    requires SchedulesQueue(SetJob(s, id, job), now, s')
    ensures Valid(s') && JobsMove(s, s') && WorkConserved(s', now)
    ensures QueueEffect(SetJob(s, id, job), now, s')
  {
    ChangeKeepsValid(s, id, job);
    QueueKeeps(SetJob(s, id, job), now, s');
    ChangeThenQueueMoves(s, id, m, job, now, s');
  }

  lemma ChangeKeepsValid(s: Store, id: string, job: Job)
    requires Valid(s) && id in s.jobs && WellPlaced(s, job)
    ensures Moves(s.jobs[id], job) ==> Valid(SetJob(s, id, job))
  {
    if Moves(s.jobs[id], job) {
      MovesSound(s.jobs[id], job);
      assert OnlinePlaced(SetJob(s, id, job));
    }
  }

  /** A change that takes no slot. */
  lemma ChangeFreesSlots(s: Store, id: string, job: Job)
    requires id in s.jobs
    requires job.IsActive() ==> s.jobs[id].ActiveOn(job.assignedTo)
    ensures WithinSlots(s, SetJob(s, id, job))
    ensures forall w :: Load(SetJob(s, id, job), w) <= Load(s, w)
  {
    forall w ensures Load(SetJob(s, id, job), w) <= Load(s, w) {
      LoadAfter(s, id, job, w);
    }
  }

  /** A change that takes a free slot. */
  lemma ChangeTakesSlot(s: Store, id: string, job: Job)
    requires job.IsActive() ==> Load(s, job.assignedTo) < SlotsOf(s, job.assignedTo)
    ensures WithinSlots(s, SetJob(s, id, job))
  {
    forall w ensures Load(SetJob(s, id, job), w) <= Max(Load(s, w), SlotsOf(s, w)) {
      LoadAfter(s, id, job, w);
    }
  }

  // ----- reports -----

  /** A finished or failed job leaves the state valid, within slots, and nobody waiting in vain. */
  lemma CompletesKeeps(s: Store, id: string, rep: Report, now: int, s': Store)
    requires Valid(s) && Completes(s, id, rep, now, s') && AcceptsReport(s, id, rep)
    ensures Valid(s') && JobsMove(s, s') && WithinSlots(s, s') && WorkConserved(s', now)
  {
    var j := s.jobs[id];
    if rep.error == "" {
      var out := Finished(j, rep, now);
      assert Makes(Succeed, j, out);
      ChangeThenQueue(s, id, Succeed, out, now, s');
      ChangeFreesSlots(s, id, out);
      QueueWithinSlots(s, SetJob(s, id, out), now, s');
    } else {
      var out :| Reschedules(s, Reported(j, rep, now), rep.nodeId, now, rep.error, out)
        && SchedulesQueue(SetJob(s, id, out), now, s');
      ReschedulesEffect(s, Reported(j, rep, now), rep.nodeId, now, rep.error, out);
      RetryThenQueue(s, id, Reported(j, rep, now), out, now, s');
    }
  }

  lemma RetryThenQueue(s: Store, id: string, reported: Job, out: Job, now: int, s': Store)
    requires Valid(s) && id in s.jobs && s.jobs[id].status == Running
    requires Makes(Stay, s.jobs[id], reported)
    requires Makes(Redispatch, reported, out) || Makes(Requeue, reported, out) || Makes(GiveUp, reported, out)
    requires out.IsActive() ==> Fresh(s, out.assignedTo, now) && Load(s, out.assignedTo) < SlotsOf(s, out.assignedTo)
    requires SchedulesQueue(SetJob(s, id, out), now, s')
    ensures Valid(s') && JobsMove(s, s') && WithinSlots(s, s') && WorkConserved(s', now)
  {
    var m := if Makes(Redispatch, reported, out) then Redispatch
             else if Makes(Requeue, reported, out) then Requeue else GiveUp;
    assert Makes(m, s.jobs[id], out);
    ChangeThenQueue(s, id, m, out, now, s');
    ChangeTakesSlot(s, id, out);
    QueueWithinSlots(s, SetJob(s, id, out), now, s');
  }

  lemma CancelsKeeps(s: Store, id: string, now: int, s': Store)
    requires Valid(s) && Cancels(s, id, now, s') && id in s.jobs && !s.jobs[id].IsTerminal()
    ensures Valid(s') && JobsMove(s, s') && WithinSlots(s, s') && WorkConserved(s', now)
  {
    var out := CanceledByOperator(s.jobs[id], now);
    assert Makes(CancelNow, s.jobs[id], out);
    ChangeThenQueue(s, id, CancelNow, out, now, s');
    ChangeFreesSlots(s, id, out);
    QueueWithinSlots(s, SetJob(s, id, out), now, s');
  }

  // ----- workers that join, report and go away -----

  /** A node that joins or reports is online, so every job stays well placed. */
  lemma OnlineNodeThenQueue(s: Store, node: Node, now: int, s': Store)
    requires Valid(s) && node.id != "" && node.status == Online
    requires SchedulesQueue(s.(nodes := s.nodes[node.id := node]), now, s')
    ensures Valid(s') && JobsMove(s, s') && WithinSlots(s, s') && WorkConserved(s', now)
  {
    var mid := s.(nodes := s.nodes[node.id := node]);
    assert OnlinePlaced(mid) by {
      forall id | id in mid.jobs ensures WellPlaced(mid, mid.jobs[id]) {
        assert WellPlaced(s, s.jobs[id]);
      }
    }
    QueueKeeps(mid, now, s');
    forall w ensures Load(s', w) <= Max(Load(s, w), SlotsOf(s', w)) {
      SameJobsSameLoad(s, mid, w);
      assert Load(s', w) <= Max(Load(mid, w), SlotsOf(mid, w));
    }
  }

  /** Losing a worker keeps the state valid, empties that worker and overfills nobody. */
  lemma LosingKeeps(s: Store, w: string, now: int, reason: string, s': Store)
    requires Valid(s) && w in s.nodes && FailsActiveJobs(TakenOffline(s, w, now), w, now, reason, s')
    ensures Valid(s') && JobsMove(s, s')
    ensures FailEffect(TakenOffline(s, w, now), w, now, s') && Load(s', w) == 0
  {
    var off := TakenOffline(s, w, now);
    FailsActiveJobsEffect(off, w, now, reason, s');
    FailMoves(off, w, now, s');
    forall id | id in off.jobs && off.jobs[id].assignedTo != w ensures WellPlaced(off, off.jobs[id]) {
      assert WellPlaced(s, s.jobs[id]);
    }
    FailPlaces(off, w, now, s');
  }

  lemma LosingWithinSlots(s: Store, w: string, now: int, s': Store)
    requires w in s.nodes && FailEffect(TakenOffline(s, w, now), w, now, s')
    ensures WithinSlots(s, s')
  {
    var off := TakenOffline(s, w, now);
    forall v ensures Load(s', v) <= Max(Load(s, v), SlotsOf(s', v)) {
      SameJobsSameLoad(s, off, v);
      assert v != w ==> Load(s', v) <= Max(Load(off, v), SlotsOf(off, v));
    }
  }

  lemma LosingConservesWork(s: Store, w: string, now: int, reason: string, s': Store)
    requires Valid(s) && w in s.nodes && FailsActiveJobs(TakenOffline(s, w, now), w, now, reason, s')
    requires WorkConserved(s, now)
    ensures WorkConserved(s', now)
  {
    var off := TakenOffline(s, w, now);
    forall id | id in off.jobs ensures Stuck(off, id, now) {
      assert Stuck(s, id, now);
      forall v ensures Eligible(off, v, off.jobs[id].requirements, now) ==>
        Eligible(s, v, s.jobs[id].requirements, now) {
      }
    }
    var order :| IsOrder(order, off.jobs.Keys) && FailVisits(off, order, w, now, reason, s');
    FailVisitsConserveWork(off, order, w, now, reason, s');
  }

  // ----- new jobs -----

  /** The request leaves its job unassigned although a worker could take it now: it hides from automatic
      placement without naming a worker, or names one that cannot take it. */
  ghost predicate Bypasses(s: Store, req: CreateRequest, now: int) {
    && (if req.noAutoAssign then req.assignedTo == "" else req.assignedTo != "" && !AcceptsPin(s, req, now))
    && exists w :: Eligible(s, w, req.requirements, now)
  }

  lemma PlacesWell(s: Store, id: string, req: CreateRequest, now: int, job: Job)
    requires Places(s, id, req, now, job)
    ensures Born(job) && job.id == id && WellPlaced(s, job) && job.requirements == req.requirements
    ensures job.IsActive() ==> Load(s, job.assignedTo) < SlotsOf(s, job.assignedTo)
    ensures job.IsWaiting() && (exists w :: Eligible(s, w, req.requirements, now)) <==> Bypasses(s, req, now)
  {
  }

  lemma CreatesKeeps(s: Store, id: string, req: CreateRequest, now: int, s': Store)
    requires Valid(s) && id != "" && id !in s.jobs && Creates(s, id, req, now, s')
    ensures Valid(s') && JobsMove(s, s') && WithinSlots(s, s')
    ensures s'.nodes == s.nodes && s'.scores == s.scores
    ensures id in s'.jobs && s' == SetJob(s, id, s'.jobs[id])
  {
    var job :| Places(s, id, req, now, job) && s' == SetJob(s, id, job);
    PlacesWell(s, id, req, now, job);
    UnchangedMoves(s);
    ChangeTakesSlot(s, id, job);
    assert OnlinePlaced(s');
  }

  /** Creating a job keeps work conserved exactly when the request does not bypass the workers. */
  lemma CreatesConservesWork(s: Store, id: string, req: CreateRequest, now: int, s': Store)
    requires Valid(s) && id !in s.jobs && Creates(s, id, req, now, s') && WorkConserved(s, now)
    ensures WorkConserved(s', now) <==> !Bypasses(s, req, now)
  {
    var job :| Places(s, id, req, now, job) && s' == SetJob(s, id, job);
    PlacesWell(s, id, req, now, job);
    forall k | k in s.jobs ensures Stuck(s', k, now) {
      assert Stuck(s, k, now);
      NewJobAddsNoRoom(s, id, job, s.jobs[k].requirements, now);
    }
    if job.IsWaiting() {
      NewJobAddsNoRoom(s, id, job, req.requirements, now);
      assert Stuck(s', id, now) <==> !Bypasses(s, req, now);
    }
  }

  lemma NewJobAddsNoRoom(s: Store, id: string, job: Job, req: Requirements, now: int)
    requires id !in s.jobs
    ensures forall w :: Eligible(SetJob(s, id, job), w, req, now) ==> Eligible(s, w, req, now)
    ensures !job.IsActive() ==> forall w :: Eligible(s, w, req, now) ==> Eligible(SetJob(s, id, job), w, req, now)
  {
    forall w
      ensures Eligible(SetJob(s, id, job), w, req, now) ==> Eligible(s, w, req, now)
      ensures !job.IsActive() && Eligible(s, w, req, now) ==> Eligible(SetJob(s, id, job), w, req, now)
    {
      LoadAfter(s, id, job, w);
    }
  }

  lemma {:induction false} CreatesBatchKeeps(s: Store, ids: seq<string>, reqs: seq<CreateRequest>, now: int, s': Store)
    requires |ids| == |reqs| && Valid(s) && CreatesBatch(s, ids, reqs, now, s')
    requires forall i :: 0 <= i < |ids| ==> ids[i] != "" && ids[i] !in s.jobs
    requires forall i, j :: 0 <= i < j < |ids| ==> ids[i] != ids[j]
    ensures Valid(s') && JobsMove(s, s') && WithinSlots(s, s')
    ensures s'.nodes == s.nodes
    ensures forall id :: id in s.jobs ==> id in s'.jobs && s'.jobs[id] == s.jobs[id]
    ensures forall id :: id in s'.jobs ==> id in s.jobs || id in ids
    decreases |ids|
  {
    hide Load, Sound;
    if ids == [] {
      UnchangedMoves(s);
    } else {
      var m: Store :| CreatesBatch(s, Init(ids), Init(reqs), now, m) && Creates(m, Last(ids), Last(reqs), now, s');
      CreatesBatchKeeps(s, Init(ids), Init(reqs), now, m);
      assert Last(ids) !in m.jobs;
      CreatesKeeps(m, Last(ids), Last(reqs), now, s');
      BatchStepMoves(s, m, Last(ids), s');
      forall w ensures Load(s', w) <= Max(Load(s, w), SlotsOf(s', w)) {
        assert Load(m, w) <= Max(Load(s, w), SlotsOf(m, w));
      }
      assert Last(ids) in ids && forall id :: id in Init(ids) ==> id in ids;
    }
  }

  lemma BatchStepMoves(s: Store, m: Store, id: string, s': Store)
    requires JobsMove(s, m) && JobsMove(m, s') && id !in m.jobs && id in s'.jobs && s' == SetJob(m, id, s'.jobs[id])
    requires forall k :: k in s.jobs ==> k in m.jobs && m.jobs[k] == s.jobs[k]
    ensures JobsMove(s, s')
  {
  }

  // ----- listing the nodes -----

  predicate KeptOrDropped(n: Node, n': Node, now: int) {
    n' == n || (Stale(n, now) && n' == n.(status := Offline, updatedAt := now))
  }

  predicate DropsOnlyStale(nodes: map<string, Node>, nodes': map<string, Node>, now: int) {
    nodes'.Keys == nodes.Keys && forall w :: w in nodes ==> KeptOrDropped(nodes[w], nodes'[w], now)
  }

  /** A timeout touches only jobs of timed-out workers, and moves them to fresh ones. */
  ghost predicate TimeoutTouch(s: Store, j: Job, j': Job, now: int) {
    || j' == j
    || (&& j.IsActive() && j.assignedTo in s.nodes && Stale(s.nodes[j.assignedTo], now)
        && j'.cdipState == j.cdipState
        && (j'.IsActive() ==> ServedBy(s, j'.assignedTo, j.requirements, now)))
  }

  /** All that listing the nodes does: timed-out workers go offline, their jobs move to fresh workers
      within slots, and nothing else changes. */
  ghost predicate TimeoutEffect(s: Store, now: int, s': Store) {
    && s'.scores == s.scores && s'.jobs.Keys == s.jobs.Keys
    && DropsOnlyStale(s.nodes, s'.nodes, now)
    && (forall id :: id in s.jobs ==> TimeoutTouch(s, s.jobs[id], s'.jobs[id], now) && Moves(s.jobs[id], s'.jobs[id]))
    && WithinSlots(s, s')
  }

  lemma NodeVisitEffect(s: Store, w: string, now: int, s': Store)
    requires Valid(s) && NodeVisit(s, w, now, s')
    ensures Valid(s') && TimeoutEffect(s, now, s')
    ensures w in s.nodes && Stale(s.nodes[w], now) ==> s'.nodes[w].status == Offline && Load(s', w) == 0
    ensures forall v :: v in s.nodes && v != w ==> s'.nodes[v] == s.nodes[v]
  {
    hide Load, Sound;
    if w in s.nodes && Stale(s.nodes[w], now) {
      LosingKeeps(s, w, now, TIMED_OUT, s');
      LosingWithinSlots(s, w, now, s');
      var off := TakenOffline(s, w, now);
      forall id | id in s.jobs ensures TimeoutTouch(s, s.jobs[id], s'.jobs[id], now) {
        assert FailTouch(s.jobs[id], s'.jobs[id], w);
      }
    } else {
      UnchangedMoves(s);
    }
  }

  lemma TimeoutTouchTrans(s: Store, m: Store, j: Job, k: Job, j': Job, now: int)
    requires DropsOnlyStale(s.nodes, m.nodes, now)
    requires TimeoutTouch(s, j, k, now) && TimeoutTouch(m, k, j', now)
    ensures TimeoutTouch(s, j, j', now) && (k == j || j' == k)
  {
    if k != j && j' != k {
      assert false;
    }
  }

  lemma TimeoutEffectTrans(s: Store, m: Store, s': Store, now: int)
    requires TimeoutEffect(s, now, m) && TimeoutEffect(m, now, s')
    ensures TimeoutEffect(s, now, s')
  {
    hide Load, Makes;
    forall id | id in s.jobs
      ensures TimeoutTouch(s, s.jobs[id], s'.jobs[id], now) && Moves(s.jobs[id], s'.jobs[id])
    {
      TimeoutTouchTrans(s, m, s.jobs[id], m.jobs[id], s'.jobs[id], now);
    }
    forall w ensures Load(s', w) <= Max(Load(s, w), SlotsOf(s', w)) {
      assert SlotsOf(m, w) == SlotsOf(s, w) == SlotsOf(s', w);
    }
  }

  /** A worker that is not fresh receives nothing. */
  lemma NotFreshGainsNothing(s: Store, w: string, now: int, s': Store)
    requires TimeoutEffect(s, now, s') && !Fresh(s, w, now)
    ensures Load(s', w) <= Load(s, w)
  {
    forall id | id in s'.jobs && s'.jobs[id].ActiveOn(w) ensures s.jobs[id].ActiveOn(w) {
      assert TimeoutTouch(s, s.jobs[id], s'.jobs[id], now);
    }
    NoGainNoLoad(s, s', w);
  }

  lemma {:induction false} NodeVisitsEffect(s: Store, order: seq<string>, now: int, s': Store)
    requires Valid(s) && NodeVisits(s, order, now, s')
    ensures Valid(s') && TimeoutEffect(s, now, s')
    ensures forall w :: w in order && w in s.nodes && Stale(s.nodes[w], now) ==>
      s'.nodes[w].status == Offline && Load(s', w) == 0
    ensures forall w :: w in s.nodes && w !in order ==> s'.nodes[w] == s.nodes[w]
    decreases |order|
  {
    hide Load, Valid, Moves, WithinSlots;
    if order == [] {
      TimeoutNothing(s, now);
    } else {
      var m: Store :| NodeVisits(s, Init(order), now, m) && NodeVisit(m, Last(order), now, s');
      NodeVisitsEffect(s, Init(order), now, m);
      NodeVisitEffect(m, Last(order), now, s');
      TimeoutEffectTrans(s, m, s', now);
      assert order == Init(order) + [Last(order)];
      forall w | w in order && w in s.nodes && Stale(s.nodes[w], now)
        ensures s'.nodes[w].status == Offline && Load(s', w) == 0
      {
        if w in Init(order) {
          NotFreshGainsNothing(m, w, now, s');
        }
      }
    }
  }

  lemma TimeoutNothing(s: Store, now: int)
    ensures TimeoutEffect(s, now, s)
  {
    UnchangedMoves(s);
  }

  /** Listing the nodes keeps the state valid, empties every worker that timed out, and moves their jobs
      only to workers that have not. */
  lemma ListsNodesKeeps(s: Store, now: int, s': Store)
    requires Valid(s) && ListsNodes(s, now, s')
    ensures Valid(s') && JobsMove(s, s') && WithinSlots(s, s') && TimeoutEffect(s, now, s')
    ensures forall w :: w in s.nodes && Stale(s.nodes[w], now) ==> s'.nodes[w].status == Offline && Load(s', w) == 0
  {
    hide Load, Valid, Moves, WithinSlots;
    var order :| IsOrder(order, s.nodes.Keys) && NodeVisits(s, order, now, s');
    NodeVisitsEffect(s, order, now, s');
  }

  lemma {:induction false} NodeVisitsConserveWork(s: Store, order: seq<string>, now: int, s': Store)
    requires Valid(s) && NodeVisits(s, order, now, s') && WorkConserved(s, now)
    ensures WorkConserved(s', now)
    decreases |order|
  {
    hide Load, Valid, Stuck;
    if order != [] {
      var m: Store :| NodeVisits(s, Init(order), now, m) && NodeVisit(m, Last(order), now, s');
      NodeVisitsEffect(s, Init(order), now, m);
      NodeVisitsConserveWork(s, Init(order), now, m);
      if s' != m {
        LosingConservesWork(m, Last(order), now, TIMED_OUT, s');
      }
    }
  }
}
