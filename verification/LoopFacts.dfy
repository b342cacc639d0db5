/** Facts about the two scheduling loops, for every iteration order and every tie between workers. */
module LoopFacts {
  import opened Jobs
  import opened Scheduler
  import opened Lifecycle

  ghost predicate AllSound(s: Store) {
    forall id :: id in s.jobs ==> Sound(s.jobs[id])
  }

  function Max(a: int, b: int): int {
    if a >= b then a else b
  }

  function SlotsOf(s: Store, w: string): int {
    if w in s.nodes then Slots(s.nodes[w]) else 0
  }

  /** A known online worker heard from recently. */
  predicate Fresh(s: Store, w: string, now: int) {
    w in s.nodes && s.nodes[w].role == Worker && s.nodes[w].status == Online && !Stale(s.nodes[w], now)
  }

  function One(b: bool): nat {
    if b then 1 else 0
  }

  /** Changing one job changes one worker's load by at most that job. */
  lemma LoadAfter(s: Store, id: string, job: Job, w: string)
    ensures Load(SetJob(s, id, job), w)
         == Load(s, w) - One(id in s.jobs && s.jobs[id].ActiveOn(w)) + One(job.ActiveOn(w))
  {
    var before, after := ActiveSet(s.jobs, w), ActiveSet(SetJob(s, id, job).jobs, w);
    assert after == before - {id} + if job.ActiveOn(w) then {id} else {};
  }

  /** Loads depend on the jobs alone. */
  lemma SameJobsSameLoad(s: Store, s': Store, w: string)
    requires s'.jobs == s.jobs
    ensures Load(s', w) == Load(s, w)
  {
  }

  /** A job active on a worker shows in its load. */
  lemma ActiveMeansLoad(s: Store, id: string, w: string)
    requires id in s.jobs && s.jobs[id].ActiveOn(w)
    ensures Load(s, w) > 0
  {
    assert id in ActiveSet(s.jobs, w);
  }

  /** A worker that gains no active job gains no load. */
  lemma NoGainNoLoad(s: Store, s': Store, w: string)
    requires s'.jobs.Keys == s.jobs.Keys
    requires forall id :: id in s'.jobs && s'.jobs[id].ActiveOn(w) ==> s.jobs[id].ActiveOn(w)
    ensures Load(s', w) <= Load(s, w)
  {
    var before, after := ActiveSet(s.jobs, w), ActiveSet(s'.jobs, w);
    assert before == after + (before - after);
  }

  /** Nothing but jobs changed, and no job appeared or vanished. */
  ghost predicate OnlyJobs(s: Store, s': Store) {
    s'.nodes == s.nodes && s'.scores == s.scores && s'.jobs.Keys == s.jobs.Keys
  }

  // ----- the scheduling loop -----

  /** All the scheduling loop may do to one job: nothing, refresh its note, or dispatch it. */
  predicate QueueTouch(j: Job, j': Job) {
    || j' == j
    || (j.IsWaiting() && j' == j.(lastFailure := j'.lastFailure, updatedAt := j'.updatedAt))
    || (j.IsWaiting() && j'.status == Scheduled && j'.assignedTo != "" && j'.attempts == j.attempts + 1
        && SameIdentity(j, j') && j'.cdipState == j.cdipState)
  }

  predicate ServedBy(s: Store, w: string, req: Requirements, now: int) {
    w in s.nodes && Serves(s.nodes[w], req, now)
  }

  /** All the scheduling loop may do to the state: dispatch waiting jobs to workers that serve them, within slots. */
  ghost predicate QueueEffect(s: Store, now: int, s': Store) {
    && OnlyJobs(s, s')
    && (forall id :: id in s.jobs ==> QueueTouch(s.jobs[id], s'.jobs[id]))
    && (forall id :: id in s.jobs && s'.jobs[id] != s.jobs[id] && s'.jobs[id].IsActive() ==>
          ServedBy(s, s'.jobs[id].assignedTo, s.jobs[id].requirements, now))
    && (forall w :: Load(s, w) <= Load(s', w) <= Max(Load(s, w), SlotsOf(s, w)))
  }

  lemma QueueVisitEffect(s: Store, id: string, now: int, s': Store)
    requires WellKeyed(s) && QueueVisit(s, id, now, s')
    ensures QueueEffect(s, now, s')
  {
    if s' != s {
      forall w ensures Load(s, w) <= Load(s', w) <= Max(Load(s, w), SlotsOf(s, w)) {
        LoadAfter(s, id, s'.jobs[id], w);
      }
    }
  }

  lemma QueueEffectTrans(s: Store, m: Store, s': Store, now: int)
    requires QueueEffect(s, now, m) && QueueEffect(m, now, s')
    ensures QueueEffect(s, now, s')
  {
    hide Load;
    forall id | id in s.jobs
      ensures QueueTouch(s.jobs[id], s'.jobs[id])
      ensures s'.jobs[id] != s.jobs[id] && s'.jobs[id].IsActive() ==>
        ServedBy(s, s'.jobs[id].assignedTo, s.jobs[id].requirements, now)
    {
      assert QueueTouch(s.jobs[id], m.jobs[id]) && QueueTouch(m.jobs[id], s'.jobs[id]);
    }
    forall w ensures Load(s, w) <= Load(s', w) <= Max(Load(s, w), SlotsOf(s, w)) {
      assert Load(s, w) <= Load(m, w) <= Load(s', w);
    }
  }

  lemma NoQueueEffect(s: Store, now: int)
    ensures QueueEffect(s, now, s)
  {
    hide Load;
  }

  lemma QueueEffectKeeps(s: Store, now: int, s': Store)
    requires QueueEffect(s, now, s') && WellKeyed(s)
    ensures WellKeyed(s')
  {
    hide Load;
    forall id | id in s'.jobs ensures s'.jobs[id].id == id {
      assert QueueTouch(s.jobs[id], s'.jobs[id]);
    }
  }

  /** Waiting jobs stay well-keyed and the loop's effect is that of its visits. */
  lemma {:induction false} QueueVisitsEffect(s: Store, order: seq<string>, now: int, s': Store)
    requires WellKeyed(s) && QueueVisits(s, order, now, s')
    ensures QueueEffect(s, now, s') && WellKeyed(s')
    decreases |order|
  {
    hide QueueEffect, QueueVisit, WellKeyed;
    if order != [] {
      var m: Store :| QueueVisits(s, Init(order), now, m) && QueueVisit(m, Last(order), now, s');
      QueueVisitsEffect(s, Init(order), now, m);
      QueueVisitEffect(m, Last(order), now, s');
      QueueEffectTrans(s, m, s', now);
    } else {
      NoQueueEffect(s, now);
    }
    QueueEffectKeeps(s, now, s');
  }

  /** Workers only fill up during the loop, so a worker that cannot take a job now cannot later. */
  lemma EligibleShrinks(s: Store, s': Store, w: string, req: Requirements, now: int)
    requires QueueEffect(s, now, s') && Eligible(s', w, req, now)
    ensures Eligible(s, w, req, now)
  {
    assert Load(s, w) <= Load(s', w);
  }

  /** No worker can take the waiting job `id`. */
  ghost predicate Stuck(s: Store, id: string, now: int) {
    id in s.jobs && s.jobs[id].IsWaiting() ==> forall w :: !Eligible(s, w, s.jobs[id].requirements, now)
  }

  lemma StuckStays(s: Store, s': Store, id: string, now: int)
    requires QueueEffect(s, now, s') && Stuck(s, id, now)
    ensures Stuck(s', id, now)
  {
    if id in s'.jobs && s'.jobs[id].IsWaiting() {
      assert QueueTouch(s.jobs[id], s'.jobs[id]);
      forall w ensures !Eligible(s', w, s'.jobs[id].requirements, now) {
        if Eligible(s', w, s'.jobs[id].requirements, now) {
          EligibleShrinks(s, s', w, s.jobs[id].requirements, now);
        }
      }
    }
  }

  lemma QueueVisitSettles(s: Store, id: string, now: int, s': Store)
    requires WellKeyed(s) && QueueVisit(s, id, now, s')
    ensures Stuck(s', id, now)
  {
    QueueVisitEffect(s, id, now, s');
    if id in s.jobs && s.jobs[id].IsWaiting() && s'.jobs[id].IsWaiting() {
      assert Stuck(s, id, now) by {
        assert IsPick(s, s.jobs[id].requirements, {}, now, "");
      }
      StuckStays(s, s', id, now);
    }
  }

  lemma {:induction false} QueueVisitsSettle(s: Store, order: seq<string>, now: int, s': Store, id: string)
    requires WellKeyed(s) && QueueVisits(s, order, now, s') && id in order
    ensures Stuck(s', id, now)
    decreases |order|
  {
    var m: Store :| QueueVisits(s, Init(order), now, m) && QueueVisit(m, Last(order), now, s');
    QueueVisitsEffect(s, Init(order), now, m);
    QueueVisitEffect(m, Last(order), now, s');
    if id == Last(order) {
      QueueVisitSettles(m, id, now, s');
    } else {
      assert id in Init(order);
      QueueVisitsSettle(s, Init(order), now, m, id);
      StuckStays(m, s', id, now);
    }
  }

  /** Nobody waits for a worker that could take the job. */
  ghost predicate WorkConserved(s: Store, now: int) {
    forall id :: id in s.jobs ==> Stuck(s, id, now)
  }

  /** The scheduling loop leaves no job waiting that some worker could take. */
  lemma QueueConservesWork(s: Store, now: int, s': Store)
    requires WellKeyed(s) && SchedulesQueue(s, now, s')
    ensures QueueEffect(s, now, s') && WellKeyed(s') && WorkConserved(s', now)
  {
    var order :| IsOrder(order, s.jobs.Keys) && QueueVisits(s, order, now, s');
    QueueVisitsEffect(s, order, now, s');
    forall id | id in s'.jobs ensures Stuck(s', id, now) {
      QueueVisitsSettle(s, order, now, s', id);
    }
  }

  // ----- failing a worker's jobs -----

  /** All that losing worker `w` may do to one job. */
  ghost predicate FailTouch(j: Job, j': Job, w: string) {
    || j' == j
    || (j.ActiveOn(w) && !j'.ActiveOn(w)
        && (Makes(Redispatch, j, j') || Makes(Requeue, j, j') || Makes(GiveUp, j, j')))
  }

  ghost predicate FailEffect(s: Store, w: string, now: int, s': Store) {
    && OnlyJobs(s, s')
    && (forall id :: id in s.jobs ==> FailTouch(s.jobs[id], s'.jobs[id], w))
    && (forall id :: id in s.jobs && s'.jobs[id] != s.jobs[id] && s'.jobs[id].IsActive() ==>
          s'.jobs[id].assignedTo != w && ServedBy(s, s'.jobs[id].assignedTo, s.jobs[id].requirements, now))
    && (forall v :: v != w ==> Load(s, v) <= Load(s', v) <= Max(Load(s, v), SlotsOf(s, v)))
    && Load(s', w) <= Load(s, w)
  }

  /** What rescheduling makes of a sound active job of a worker. */
  lemma ReschedulesEffect(s: Store, j: Job, w: string, now: int, reason: string, out: Job)
    requires WellKeyed(s) && Sound(j) && j.ActiveOn(w) && Reschedules(s, j, w, now, reason, out)
    ensures Makes(Redispatch, j, out) || Makes(Requeue, j, out) || Makes(GiveUp, j, out)
    ensures !out.ActiveOn(w)
    ensures out.IsActive() ==>
      && ServedBy(s, out.assignedTo, j.requirements, now) && Fresh(s, out.assignedTo, now)
      && Load(s, out.assignedTo) < SlotsOf(s, out.assignedTo)
    ensures out.IsWaiting() ==> forall v :: v != w ==> !Eligible(s, v, j.requirements, now)
  {
    assert Normalized(j) == j;
  }

  lemma FailVisitEffect(s: Store, id: string, w: string, now: int, reason: string, s': Store)
    requires WellKeyed(s) && AllSound(s) && FailVisit(s, id, w, now, reason, s')
    ensures FailEffect(s, w, now, s')
    ensures id in s'.jobs ==> !s'.jobs[id].ActiveOn(w)
  {
    hide Load, Makes, Sound, Eligible, Reschedules;
    if id in s.jobs && s.jobs[id].ActiveOn(w) {
      var out :| Reschedules(s, s.jobs[id], w, now, reason, out) && s' == SetJob(s, id, out);
      ReschedulesEffect(s, s.jobs[id], w, now, reason, out);
      FailVisitLoads(s, id, w, out);
    }
  }

  lemma FailVisitLoads(s: Store, id: string, w: string, out: Job)
    requires id in s.jobs && s.jobs[id].ActiveOn(w) && !out.ActiveOn(w)
    requires out.IsActive() ==> Load(s, out.assignedTo) < SlotsOf(s, out.assignedTo)
    ensures var s' := SetJob(s, id, out);
      && Load(s', w) <= Load(s, w)
      && forall v :: v != w ==> Load(s, v) <= Load(s', v) <= Max(Load(s, v), SlotsOf(s, v))
  {
    var s' := SetJob(s, id, out);
    LoadAfter(s, id, out, w);
    forall v | v != w ensures Load(s, v) <= Load(s', v) <= Max(Load(s, v), SlotsOf(s, v)) {
      LoadAfter(s, id, out, v);
    }
  }

  lemma FailTouchMoves(j: Job, j': Job, w: string)
    requires FailTouch(j, j', w) && Sound(j)
    ensures Sound(j') && SameIdentity(j, j') && Moves(j, j')
  {
    if j' == j {
      assert Makes(Stay, j, j');
    } else if Makes(Redispatch, j, j') {
    } else if Makes(Requeue, j, j') {
    } else {
      assert Makes(GiveUp, j, j');
    }
  }

  lemma FailEffectTrans(s: Store, m: Store, s': Store, w: string, now: int)
    requires FailEffect(s, w, now, m) && FailEffect(m, w, now, s')
    ensures FailEffect(s, w, now, s')
  {
    hide Load, Makes;
    forall id | id in s.jobs
      ensures FailTouch(s.jobs[id], s'.jobs[id], w)
      ensures s'.jobs[id] != s.jobs[id] && s'.jobs[id].IsActive() ==>
        s'.jobs[id].assignedTo != w && ServedBy(s, s'.jobs[id].assignedTo, s.jobs[id].requirements, now)
    {
      assert FailTouch(s.jobs[id], m.jobs[id], w) && FailTouch(m.jobs[id], s'.jobs[id], w);
      assert m.jobs[id] == s.jobs[id] || s'.jobs[id] == m.jobs[id];
    }
    forall v | v != w ensures Load(s, v) <= Load(s', v) <= Max(Load(s, v), SlotsOf(s, v)) {
      assert Load(s, v) <= Load(m, v) <= Load(s', v);
    }
  }

  lemma FailEffectKeeps(s: Store, w: string, now: int, s': Store)
    requires FailEffect(s, w, now, s') && WellKeyed(s) && AllSound(s)
    ensures WellKeyed(s') && AllSound(s')
  {
    forall id | id in s'.jobs ensures Sound(s'.jobs[id]) && s'.jobs[id].id == id && id != "" {
      FailTouchMoves(s.jobs[id], s'.jobs[id], w);
    }
  }

  lemma {:induction false} FailVisitsEffect(s: Store, order: seq<string>, w: string, now: int, reason: string,
    s': Store)
    requires WellKeyed(s) && AllSound(s) && FailVisits(s, order, w, now, reason, s')
    ensures FailEffect(s, w, now, s') && WellKeyed(s') && AllSound(s')
    ensures forall id :: id in order && id in s'.jobs ==> !s'.jobs[id].ActiveOn(w)
    decreases |order|
  {
    if order != [] {
      var m: Store :| FailVisits(s, Init(order), w, now, reason, m) && FailVisit(m, Last(order), w, now, reason, s');
      FailVisitsEffect(s, Init(order), w, now, reason, m);
      FailVisitEffect(m, Last(order), w, now, reason, s');
      FailEffectTrans(s, m, s', w, now);
      FailEffectKeeps(s, w, now, s');
      forall id | id in order && id in s'.jobs ensures !s'.jobs[id].ActiveOn(w) {
        if id != Last(order) {
          assert id in Init(order);
          assert FailTouch(m.jobs[id], s'.jobs[id], w);
        }
      }
    }
  }

  /** The loop empties the worker, and nothing lands on it or on any other worker that is offline or silent. */
  lemma FailsActiveJobsEffect(s: Store, w: string, now: int, reason: string, s': Store)
    requires WellKeyed(s) && AllSound(s) && FailsActiveJobs(s, w, now, reason, s')
    ensures FailEffect(s, w, now, s') && WellKeyed(s') && AllSound(s')
    ensures Load(s', w) == 0
  {
    var order :| IsOrder(order, s.jobs.Keys) && FailVisits(s, order, w, now, reason, s');
    FailVisitsEffect(s, order, w, now, reason, s');
    assert ActiveSet(s'.jobs, w) == {};
  }

  /** A visit that requeues a job does so only when nobody else could take it. */
  lemma FailVisitConservesWork(s: Store, id: string, w: string, now: int, reason: string, s': Store)
    requires WellKeyed(s) && AllSound(s) && FailVisit(s, id, w, now, reason, s')
    requires WorkConserved(s, now) && !Fresh(s, w, now)
    ensures WorkConserved(s', now)
  {
    FailVisitEffect(s, id, w, now, reason, s');
    forall k | k in s'.jobs ensures Stuck(s', k, now) {
      if s'.jobs[k].IsWaiting() {
        assert FailTouch(s.jobs[k], s'.jobs[k], w);
        forall v ensures !Eligible(s', v, s'.jobs[k].requirements, now) {
          if v != w && Eligible(s', v, s'.jobs[k].requirements, now) {
            assert Load(s, v) <= Load(s', v);
            assert Eligible(s, v, s.jobs[k].requirements, now);
            if s'.jobs[k] != s.jobs[k] {
              ReschedulesEffect(s, s.jobs[k], w, now, reason, s'.jobs[k]);
            }
          }
        }
      }
    }
  }

  lemma {:induction false} FailVisitsConserveWork(
    s: Store, order: seq<string>, w: string, now: int, reason: string, s': Store)
    requires WellKeyed(s) && AllSound(s) && FailVisits(s, order, w, now, reason, s')
    requires WorkConserved(s, now) && !Fresh(s, w, now)
    ensures WorkConserved(s', now)
    decreases |order|
  {
    if order != [] {
      var m: Store :| FailVisits(s, Init(order), w, now, reason, m) && FailVisit(m, Last(order), w, now, reason, s');
      FailVisitsEffect(s, Init(order), w, now, reason, m);
      FailVisitsConserveWork(s, Init(order), w, now, reason, m);
      FailVisitConservesWork(m, Last(order), w, now, reason, s');
    }
  }
}
