/** Where active jobs sit. A job strays when it is active on a worker that is not stored as online; only a CDIP
    stage that is told to prepare may start to. */
module Placement {
  import opened Text
  import opened Jobs
  import opened Scheduler
  import opened Lifecycle
  import opened LoopFacts
  import opened StepFacts
  import Cdip

  predicate IsOnline(s: Store, w: string) {
    w in s.nodes && s.nodes[w].status == Online
  }

  predicate Strays(s: Store, j: Job) {
    j.IsActive() && !IsOnline(s, j.assignedTo)
  }

  /** Every stray job was already astray on the same worker. */
  ghost predicate NoNewStray(s: Store, s': Store) {
    forall id :: id in s'.jobs && Strays(s', s'.jobs[id]) ==> WasStray(s, id, s'.jobs[id].assignedTo)
  }

  predicate WasStray(s: Store, id: string, w: string) {
    id in s.jobs && Strays(s, s.jobs[id]) && s.jobs[id].assignedTo == w
  }

  lemma NoNewStrayTrans(s: Store, m: Store, s': Store)
    requires NoNewStray(s, m) && NoNewStray(m, s')
    ensures NoNewStray(s, s')
  {
    hide Strays;
    forall id | id in s'.jobs && Strays(s', s'.jobs[id]) ensures WasStray(s, id, s'.jobs[id].assignedTo) {
      assert WasStray(m, id, s'.jobs[id].assignedTo);
    }
  }

  lemma QueueStraysNobody(s: Store, now: int, s': Store)
    requires QueueEffect(s, now, s')
    ensures NoNewStray(s, s')
  {
    hide Load;
    forall id | id in s'.jobs && Strays(s', s'.jobs[id]) ensures WasStray(s, id, s'.jobs[id].assignedTo) {
      assert QueueTouch(s.jobs[id], s'.jobs[id]);
    }
  }

  /** One job changed, and where it is active it is online or was already astray there. */
  lemma ChangeStraysNobody(s: Store, id: string, job: Job)
    requires Strays(s, job) ==> WasStray(s, id, job.assignedTo)
    ensures NoNewStray(s, SetJob(s, id, job))
  {
  }

  lemma OnlineNodeStraysNobody(s: Store, node: Node)
    requires node.status == Online
    ensures NoNewStray(s, s.(nodes := s.nodes[node.id := node]))
  {
  }

  lemma LosingStraysNobody(s: Store, w: string, now: int, s': Store)
    requires w in s.nodes && FailEffect(TakenOffline(s, w, now), w, now, s') && Load(s', w) == 0
    ensures NoNewStray(s, s')
  {
    forall id | id in s'.jobs && Strays(s', s'.jobs[id]) ensures WasStray(s, id, s'.jobs[id].assignedTo) {
      assert FailTouch(s.jobs[id], s'.jobs[id], w);
      if s'.jobs[id].ActiveOn(w) {
        ActiveMeansLoad(s', id, w);
      }
    }
  }

  lemma ListingStraysNobody(s: Store, now: int, s': Store)
    requires TimeoutEffect(s, now, s')
    requires forall w :: w in s.nodes && Stale(s.nodes[w], now) ==> s'.nodes[w].status == Offline && Load(s', w) == 0
    ensures NoNewStray(s, s')
  {
    hide Load, WithinSlots, Moves;
    forall id | id in s'.jobs && Strays(s', s'.jobs[id]) ensures WasStray(s, id, s'.jobs[id].assignedTo) {
      var w := s'.jobs[id].assignedTo;
      ActiveMeansLoad(s', id, w);
      assert TimeoutTouch(s, s.jobs[id], s'.jobs[id], now);
      assert w in s.nodes ==> KeptOrDropped(s.nodes[w], s'.nodes[w], now);
    }
  }

  lemma PlacesOnline(s: Store, id: string, req: CreateRequest, now: int, job: Job)
    requires Places(s, id, req, now, job)
    ensures !Strays(s, job)
  {
    hide Load;
  }

  lemma CreateStraysNobody(s: Store, id: string, req: CreateRequest, now: int, s': Store)
    requires Creates(s, id, req, now, s')
    ensures NoNewStray(s, s')
  {
    hide Places, Strays;
    var job :| Places(s, id, req, now, job) && s' == SetJob(s, id, job);
    PlacesOnline(s, id, req, now, job);
    ChangeStraysNobody(s, id, job);
  }

  lemma {:induction false} BatchStraysNobody(
    s: Store, ids: seq<string>, reqs: seq<CreateRequest>, now: int, s': Store)
    requires |ids| == |reqs| && CreatesBatch(s, ids, reqs, now, s')
    ensures NoNewStray(s, s')
    decreases |ids|
  {
    hide Creates, NoNewStray;
    if ids == [] {
      NothingStrays(s);
    } else {
      var m: Store :| CreatesBatch(s, Init(ids), Init(reqs), now, m) && Creates(m, Last(ids), Last(reqs), now, s');
      BatchStraysNobody(s, Init(ids), Init(reqs), now, m);
      CreateStraysNobody(m, Last(ids), Last(reqs), now, s');
      NoNewStrayTrans(s, m, s');
    }
  }

  lemma NothingStrays(s: Store)
    ensures NoNewStray(s, s)
  {
  }

  lemma CompletesStraysNobody(s: Store, id: string, rep: Report, now: int, s': Store)
    requires Valid(s) && Completes(s, id, rep, now, s')
    ensures NoNewStray(s, s')
  {
    hide SchedulesQueue, ReportMakes, Load, NoNewStray, OnlinePlaced;
    if AcceptsReport(s, id, rep) {
      var out :| ReportMakes(s, id, rep, now, out) && SchedulesQueue(SetJob(s, id, out), now, s');
      ReportedStaysOnline(s, id, rep, now, out);
      ChangeStraysNobody(s, id, out);
      QueueConservesWork(SetJob(s, id, out), now, s');
      QueueStraysNobody(SetJob(s, id, out), now, s');
      NoNewStrayTrans(s, SetJob(s, id, out), s');
    } else {
      NothingStrays(s);
    }
  }

  lemma ReportedStaysOnline(s: Store, id: string, rep: Report, now: int, out: Job)
    requires WellKeyed(s) && AllSound(s) && AcceptsReport(s, id, rep) && ReportMakes(s, id, rep, now, out)
    ensures !Strays(s, out) && out.id == id
  {
    hide Load;
    if rep.error != "" {
      ReschedulesEffect(s, Reported(s.jobs[id], rep, now), rep.nodeId, now, rep.error, out);
    }
  }

  lemma CancelsStraysNobody(s: Store, id: string, now: int, s': Store)
    requires Valid(s) && Cancels(s, id, now, s')
    ensures NoNewStray(s, s')
  {
    hide SchedulesQueue, Load, NoNewStray, OnlinePlaced;
    if id in s.jobs && !s.jobs[id].IsTerminal() {
      var out := CanceledByOperator(s.jobs[id], now);
      ChangeStraysNobody(s, id, out);
      QueueConservesWork(SetJob(s, id, out), now, s');
      QueueStraysNobody(SetJob(s, id, out), now, s');
      NoNewStrayTrans(s, SetJob(s, id, out), s');
    } else {
      NothingStrays(s);
    }
  }

  // ----- stages that are told to prepare -----

  /** The operation makes a queued stage job scheduled on its worker, whatever that worker's state. */
  predicate StartsStage(s: Store, op: Op) {
    && op.MoveStage? && AcceptsStageState(s, op.id, op.next) && op.next == Cdip.Preparing
    && s.jobs[op.id].status == Queued && !Blank(s.jobs[op.id].assignedTo)
  }

  /** It does so on a worker whose slots are all taken. */
  predicate Overfills(s: Store, op: Op) {
    StartsStage(s, op) && Load(s, s.jobs[op.id].assignedTo) >= SlotsOf(s, s.jobs[op.id].assignedTo)
  }

  /** It does so on a worker that is not stored as online. */
  predicate Misplaces(s: Store, op: Op) {
    StartsStage(s, op) && !IsOnline(s, s.jobs[op.id].assignedTo)
  }

  lemma StageMoveWithinSlots(s: Store, op: Op, now: int, s': Store)
    requires Step(s, op, now, s') && op.MoveStage?
    ensures WithinSlots(s, s') <==> !Overfills(s, op)
  {
    hide Load;
    if AcceptsStageState(s, op.id, op.next) {
      var job := s'.jobs[op.id];
      var w := job.assignedTo;
      forall v ensures Load(s', v) == Load(s, v) - One(s.jobs[op.id].ActiveOn(v)) + One(job.ActiveOn(v)) {
        LoadAfter(s, op.id, job, v);
      }
      if Overfills(s, op) {
        assert Load(s', w) == Load(s, w) + 1 && SlotsOf(s', w) == SlotsOf(s, w);
      }
    }
  }

  lemma StageMoveStrays(s: Store, op: Op, now: int, s': Store)
    requires Step(s, op, now, s') && op.MoveStage?
    ensures NoNewStray(s, s') <==> !Misplaces(s, op)
  {
    hide Load;
    if Misplaces(s, op) {
      assert Strays(s', s'.jobs[op.id]) && !WasStray(s, op.id, s'.jobs[op.id].assignedTo);
    }
  }
}
