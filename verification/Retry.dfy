/** When a failed job comes back to the worker that failed it, although that worker is excluded from the retry. */
module Retry {
  import opened Finite
  import opened Jobs
  import opened Scheduler
  import opened Lifecycle
  import opened LoopFacts
  import opened StepFacts
  import opened Runs
  import Cdip

  /** A report of a failure that the manager accepts. */
  predicate ReportsFailure(s: Store, id: string, rep: Report) {
    AcceptsReport(s, id, rep) && rep.error != ""
  }

  /** No other worker can take the job, and its own still serves it and has a slot once this one is freed. */
  predicate ComesBack(s: Store, id: string, rep: Report, now: int)
    requires id in s.jobs
  {
    var j, w := s.jobs[id], rep.nodeId;
    && j.attempts < j.maxAttempts
    && (forall v :: v in s.nodes && v != w ==> !Eligible(s, v, j.requirements, now))
    && w in s.nodes && Serves(s.nodes[w], j.requirements, now) && Load(s, w) <= Slots(s.nodes[w])
  }

  predicate HandedTo(s: Store, id: string, w: string) {
    id in s.jobs && s.jobs[id].status == Scheduled && s.jobs[id].assignedTo == w
  }

  // ----- every loop has an outcome -----

  /** Among finitely many candidates one has the highest score. */
  lemma {:induction false} BestExists(s: Store, candidates: set<string>) returns (w: string)
    requires candidates != {}
    ensures w in candidates && forall v :: v in candidates ==> Score(s, v) <= Score(s, w)
    decreases candidates
  {
    w :| w in candidates;
    if candidates != {w} {
      var best := BestExists(s, candidates - {w});
      if Score(s, w) < Score(s, best) {
        w := best;
      }
    }
  }

  lemma PickExists(s: Store, req: Requirements, excluded: set<string>, now: int) returns (w: string)
    requires WellKeyed(s)
    ensures IsPick(s, req, excluded, now, w)
  {
    hide Load, Serves, Score;
    var candidates := set v | v in s.nodes && v !in excluded && Eligible(s, v, req, now);
    if candidates == {} {
      w := "";
      forall v | v !in excluded ensures !Eligible(s, v, req, now) {
        assert v !in candidates;
      }
    } else {
      w := BestExists(s, candidates);
    }
  }

  lemma VisitExists(s: Store, id: string, now: int) returns (s': Store)
    requires WellKeyed(s)
    ensures QueueVisit(s, id, now, s')
  {
    hide IsPick;
    if id in s.jobs && s.jobs[id].IsWaiting() {
      var j := s.jobs[id];
      var w := PickExists(s, j.requirements, {}, now);
      s' := SetJob(s, id, if w == "" then LeftWaiting(j, WaitingReason(s, j.requirements, now), now) else
        DispatchedTo(j, w, now));
    } else {
      s' := s;
    }
  }

  lemma {:induction false} VisitsExist(s: Store, order: seq<string>, now: int) returns (s': Store)
    requires WellKeyed(s)
    ensures QueueVisits(s, order, now, s')
    decreases |order|
  {
    hide QueueVisit, WellKeyed;
    if order == [] {
      s' := s;
    } else {
      var m := VisitsExist(s, Init(order), now);
      QueueVisitsEffect(s, Init(order), now, m);
      s' := VisitExists(m, Last(order), now);
    }
  }

  /** What the first visit does, the rest of the loop builds on. */
  lemma {:induction false} VisitFirst(s: Store, id: string, m: Store, rest: seq<string>, now: int, s': Store)
    requires QueueVisit(s, id, now, m) && QueueVisits(m, rest, now, s')
    ensures QueueVisits(s, [id] + rest, now, s')
    decreases |rest|
  {
    hide QueueVisit;
    var order := [id] + rest;
    if rest == [] {
      assert Init(order) == [] && Last(order) == id;
      assert QueueVisits(s, [], now, s);
    } else {
      var n: Store :| QueueVisits(m, Init(rest), now, n) && QueueVisit(n, Last(rest), now, s');
      VisitFirst(s, id, m, Init(rest), now, n);
      assert Init(order) == [id] + Init(rest) && Last(order) == Last(rest);
    }
  }

  lemma {:induction false} OrderExists(keys: set<string>) returns (order: seq<string>)
    ensures IsOrder(order, keys)
    decreases keys
  {
    if keys == {} {
      order := [];
    } else {
      var id :| id in keys;
      var rest := OrderExists(keys - {id});
      order := [id] + rest;
    }
  }

  // ----- the condition -----

  /** Necessary: whenever the job ends up on the worker that failed it, the condition held before the call. */
  lemma OnlyThenComesBack(s: Store, id: string, rep: Report, now: int, s': Store)
    requires Valid(s) && ReportsFailure(s, id, rep) && Step(s, Complete(id, rep), now, s')
    requires HandedTo(s', id, rep.nodeId)
    ensures ComesBack(s, id, rep, now)
  {
    hide Load, Serves, OnlinePlaced, SchedulesQueue, Reschedules;
    var j, w := s.jobs[id], rep.nodeId;
    var out :| Reschedules(s, Reported(j, rep, now), w, now, rep.error, out)
      && SchedulesQueue(SetJob(s, id, out), now, s');
    ReschedulesEffect(s, Reported(j, rep, now), w, now, rep.error, out);
    FreedSlot(s, id, Reported(j, rep, now), w, now, rep.error, out, s');
  }

  lemma FreedSlot(s: Store, id: string, j: Job, w: string, now: int, reason: string, out: Job, s': Store)
    requires WellKeyed(s) && id in s.jobs && s.jobs[id].ActiveOn(w) && Sound(j) && j.ActiveOn(w)
    requires Reschedules(s, j, w, now, reason, out) && out.id == id && !out.ActiveOn(w)
    requires out.IsWaiting() ==> forall v :: v != w ==> !Eligible(s, v, j.requirements, now)
    requires SchedulesQueue(SetJob(s, id, out), now, s') && HandedTo(s', id, w)
    ensures j.attempts < j.maxAttempts && (forall v :: v != w ==> !Eligible(s, v, j.requirements, now))
    ensures w in s.nodes && Serves(s.nodes[w], j.requirements, now) && Load(s, w) <= Slots(s.nodes[w])
  {
    assert Normalized(j) == j;
    hide Load, Serves, SchedulesQueue, Sound;
    var mid := SetJob(s, id, out);
    QueueConservesWork(mid, now, s');
    assert QueueTouch(out, s'.jobs[id]);
    assert out.IsWaiting() && out.requirements == j.requirements;
    LoadAfter(s, id, out, w);
    GainsWithinSlots(mid, id, w, now, s');
  }

  /** A job the loop hands to a worker takes a slot that was free. */
  lemma GainsWithinSlots(s: Store, id: string, w: string, now: int, s': Store)
    requires QueueEffect(s, now, s') && id in s.jobs && s.jobs[id].IsWaiting() && HandedTo(s', id, w)
    ensures Load(s, w) < Load(s', w) <= SlotsOf(s, w)
  {
    var before, after := ActiveSet(s.jobs, w), ActiveSet(s'.jobs, w);
    forall k | k in before ensures k in after {
      assert QueueTouch(s.jobs[k], s'.jobs[k]);
    }
    assert id in after && id !in before;
    ProperSubsetSize(before, after, id);
  }

  /** Sufficient: when the condition holds, the loop may offer this job first, and then hands it straight back. */
  lemma ThenMayComeBack(s: Store, id: string, rep: Report, now: int) returns (s': Store)
    requires Valid(s) && ReportsFailure(s, id, rep) && ComesBack(s, id, rep, now)
    ensures Step(s, Complete(id, rep), now, s') && HandedTo(s', id, rep.nodeId)
  {
    hide Load, Serves, OnlinePlaced, Reschedules, IsPick, SchedulesQueue, Eligible;
    var out := Retried(Reported(s.jobs[id], rep, now), "", now, rep.error);
    MayRequeue(s, id, rep, now, out);
    s' := HandsBack(s, id, rep, now, out);
    assert Completes(s, id, rep, now, s');
  }

  lemma MayRequeue(s: Store, id: string, rep: Report, now: int, out: Job)
    requires Valid(s) && ReportsFailure(s, id, rep) && ComesBack(s, id, rep, now)
    requires out == Retried(Reported(s.jobs[id], rep, now), "", now, rep.error)
    ensures ReportMakes(s, id, rep, now, out)
  {
    hide Load, Serves, OnlinePlaced;
    var j := Reported(s.jobs[id], rep, now);
    assert Normalized(j) == j;
    assert IsPick(s, j.requirements, {rep.nodeId}, now, "");
  }

  /** The requeued job is offered first, to the only worker that can take it. */
  lemma HandsBack(s: Store, id: string, rep: Report, now: int, out: Job) returns (s': Store)
    requires Valid(s) && ReportsFailure(s, id, rep) && ComesBack(s, id, rep, now)
    requires out == Retried(Reported(s.jobs[id], rep, now), "", now, rep.error)
    ensures SchedulesQueue(SetJob(s, id, out), now, s') && HandedTo(s', id, rep.nodeId)
  {
    hide Load, Serves, OnlinePlaced, AllSound;
    var mid := SetJob(s, id, out);
    LeavesOneTaker(s, id, out, now);
    hide Eligible;
    assert IsPick(mid, out.requirements, {}, now, rep.nodeId);
    var m := SetJob(mid, id, DispatchedTo(out, rep.nodeId, now));
    assert QueueVisit(mid, id, now, m);
    s' := LoopGoesOn(mid, id, m, now);
  }

  /** The loop after its first visit; the job it dispatched first stays where it is. */
  lemma LoopGoesOn(s: Store, id: string, m: Store, now: int) returns (s': Store)
    requires WellKeyed(s) && WellKeyed(m) && id in s.jobs && QueueVisit(s, id, now, m) && m.jobs.Keys == s.jobs.Keys
    requires id in m.jobs && !m.jobs[id].IsWaiting()
    ensures SchedulesQueue(s, now, s') && id in s'.jobs && s'.jobs[id] == m.jobs[id]
  {
    hide QueueVisit, WellKeyed, Load;
    var rest := OrderExists(s.jobs.Keys - {id});
    s' := VisitsExist(m, rest, now);
    VisitFirst(s, id, m, rest, now, s');
    assert IsOrder([id] + rest, s.jobs.Keys);
    QueueVisitsEffect(m, rest, now, s');
    assert QueueTouch(m.jobs[id], s'.jobs[id]);
  }

  /** Whether the retry can end where it started: some outcome of the call hands the job back to the worker that
      failed it if and only if the condition holds before the call. Otherwise no outcome does. */
  lemma RetryMayReturnExactlyWhen(s: Store, id: string, rep: Report, now: int)
    requires Valid(s) && ReportsFailure(s, id, rep)
    ensures (exists s' :: Step(s, Complete(id, rep), now, s') && HandedTo(s', id, rep.nodeId))
      <==> ComesBack(s, id, rep, now)
  {
    hide Valid, Step, ComesBack, HandedTo;
    if s' :| Step(s, Complete(id, rep), now, s') && HandedTo(s', id, rep.nodeId) {
      OnlyThenComesBack(s, id, rep, now, s');
    }
    if ComesBack(s, id, rep, now) {
      var s' := ThenMayComeBack(s, id, rep, now);
    }
  }

  /** A cluster of one worker, whose only job has failed once: the retry goes back to that worker. */
  lemma OnlyWorkerGetsItBack() returns (s: Store, rep: Report, s': Store)
    ensures Valid(s) && ReportsFailure(s, "a", rep)
    ensures Step(s, Complete("a", rep), 0, s') && HandedTo(s', "a", rep.nodeId)
  {
    s := OneWorker();
    rep := Report("w", "", "failed", "");
    OneWorkerIsValid();
    hide Valid, OneWorker, Load;
    s' := ThenMayComeBack(s, "a", rep, 0);
  }

  function OneWorker(): Store {
    var none := Requirements(0, 0, 0, false, 0);
    var request := CreateRequest("echo", RawInput(""), "", "", none, 3, false, Cdip.Unset, "", 0);
    Store(
      map["w" := Node("w", "w", Worker, Online, "", Resources(1, 1, [], 1, 1, 1), 0, 0)],
      map["a" := NewJob("a", request, 0).(assignedTo := "w", status := Running, attempts := 1)], map[])
  }

  lemma OneWorkerIsValid()
    ensures var s, rep := OneWorker(), Report("w", "", "failed", "");
      Valid(s) && ReportsFailure(s, "a", rep) && ComesBack(s, "a", rep, 0)
  {
    assert ActiveSet(OneWorker().jobs, "w") == {"a"};
  }
}
