/** What each operation of the manager's state does, as relations between the state before and
    after it. Map iteration order and ties between workers are left open: a relation holds of every
    outcome the operation may have. `now` is the one clock reading of the operation. */
module Scheduler {
  import opened Text
  import opened Jobs
  import Cdip

  /** The scheduler's part of the state; `scores` is each worker's total benchmark score. */
  datatype Store = Store(nodes: map<string, Node>, jobs: map<string, Job>, scores: map<string, real>)

  function ActiveSet(jobs: map<string, Job>, w: string): set<string> {
    set id | id in jobs && jobs[id].ActiveOn(w)
  }

  /** How many scheduled or running jobs worker `w` has. */
  function Load(s: Store, w: string): nat {
    |ActiveSet(s.jobs, w)|
  }

  function Score(s: Store, w: string): real {
    if w in s.scores then s.scores[w] else 0.0
  }

  // ----- choosing a worker -----

  /** A worker that serves the requirements and has a free slot. */
  predicate Eligible(s: Store, w: string, req: Requirements, now: int) {
    w in s.nodes && Serves(s.nodes[w], req, now) && Load(s, w) < Slots(s.nodes[w])
  }

  /** `w` is a best-scoring eligible worker outside `excluded`; "" exactly when there is none. */
  ghost predicate IsPick(s: Store, req: Requirements, excluded: set<string>, now: int, w: string) {
    if w == "" then
      forall v :: v !in excluded ==> !Eligible(s, v, req, now)
    else
      && w !in excluded && Eligible(s, w, req, now)
      && forall v :: v !in excluded && Eligible(s, v, req, now) ==> Score(s, v) <= Score(s, w)
  }

  const NO_CAPACITY := "waiting for available worker capacity"
  const NOT_CAPABLE := "waiting for capable worker"
  const FOR_COORDINATOR := "waiting for coordinator"

  function WaitingReason(s: Store, req: Requirements, now: int): string {
    if exists w :: w in s.nodes && Serves(s.nodes[w], req, now) then NO_CAPACITY else NOT_CAPABLE
  }

  predicate IsWaitingNote(note: string) {
    note == NOT_CAPABLE || note == NO_CAPACITY
  }

  // ----- iteration order -----

  function Init<T>(xs: seq<T>): seq<T>
    requires xs != []
  {
    xs[..|xs| - 1]
  }

  function Last<T>(xs: seq<T>): T
    requires xs != []
  {
    xs[|xs| - 1]
  }

  /** `order` lists each key once: one possible iteration order of a map with these keys. */
  ghost predicate IsOrder(order: seq<string>, keys: set<string>) {
    && (forall i, j :: 0 <= i < j < |order| ==> order[i] != order[j])
    && (forall id :: id in order <==> id in keys)
  }

  function SetJob(s: Store, id: string, job: Job): Store {
    s.(jobs := s.jobs[id := job])
  }

  // ----- the scheduling loop -----

  /** Job `j` handed to worker `w` by the scheduling loop. */
  function DispatchedTo(j: Job, w: string, now: int): Job {
    j.(assignedTo := w, status := Scheduled, attempts := j.attempts + 1,
       lastFailure := if IsWaitingNote(j.lastFailure) then "" else j.lastFailure,
       error := "", result := NO_RESULT, startedAt := 0, finishedAt := 0, updatedAt := now)
  }

  /** Job `j` left in the queue; only an empty or waiting note is refreshed. */
  function LeftWaiting(j: Job, reason: string, now: int): Job {
    if j.lastFailure == "" || IsWaitingNote(j.lastFailure) then j.(lastFailure := reason, updatedAt := now) else j
  }

  ghost predicate QueueVisit(s: Store, id: string, now: int, s': Store) {
    if id !in s.jobs || !s.jobs[id].IsWaiting() then
      s' == s
    else
      var j := s.jobs[id];
      exists w :: IsPick(s, j.requirements, {}, now, w)
        && s' == SetJob(s, id, if w == "" then LeftWaiting(j, WaitingReason(s, j.requirements, now), now)
                                          else DispatchedTo(j, w, now))
  }

  ghost predicate QueueVisits(s: Store, order: seq<string>, now: int, s': Store) {
    if order == [] then s' == s
    else exists m: Store :: QueueVisits(s, Init(order), now, m) && QueueVisit(m, Last(order), now, s')
  }

  /** Every queued, unassigned job is offered to the workers once, in some order. */
  ghost predicate SchedulesQueue(s: Store, now: int, s': Store) {
    exists order :: IsOrder(order, s.jobs.Keys) && QueueVisits(s, order, now, s')
  }

  // ----- a worker fails a job -----

  function Normalized(j: Job): Job {
    j.(maxAttempts := NormalizeMaxAttempts(j.maxAttempts), attempts := if j.attempts <= 0 then 1 else j.attempts)
  }

  /** Job `j` moved to worker `w` after a failure, or back to the queue when `w` is "". */
  function Retried(j: Job, w: string, now: int, reason: string): Job {
    if w != "" then
      j.(status := Scheduled, assignedTo := w, attempts := j.attempts + 1, lastFailure := reason,
         error := "", result := NO_RESULT, startedAt := 0, finishedAt := 0, updatedAt := now)
    else
      j.(status := Queued, assignedTo := "", lastFailure := reason + "; waiting for capable worker",
         error := "", result := NO_RESULT, startedAt := 0, finishedAt := 0, updatedAt := now)
  }

  function GivenUp(j: Job, now: int, reason: string): Job {
    j.(status := Failed, error := reason, lastFailure := reason, finishedAt := now, updatedAt := now)
  }

  /** What becomes of `job` after worker `failed` failed it. */
  ghost predicate Reschedules(s: Store, job: Job, failed: string, now: int, reason: string, out: Job) {
    var j := Normalized(job);
    if j.attempts < j.maxAttempts then
      exists w :: IsPick(s, j.requirements, {failed}, now, w) && out == Retried(j, w, now, reason)
    else
      out == GivenUp(j, now, reason)
  }

  ghost predicate FailVisit(s: Store, id: string, w: string, now: int, reason: string, s': Store) {
    if id !in s.jobs || !s.jobs[id].ActiveOn(w) then
      s' == s
    else
      exists out :: Reschedules(s, s.jobs[id], w, now, reason, out) && s' == SetJob(s, id, out)
  }

  ghost predicate FailVisits(s: Store, order: seq<string>, w: string, now: int, reason: string, s': Store) {
    if order == [] then s' == s
    else exists m: Store ::
      FailVisits(s, Init(order), w, now, reason, m) && FailVisit(m, Last(order), w, now, reason, s')
  }

  /** Every active job of worker `w` is moved, requeued or failed. */
  ghost predicate FailsActiveJobs(s: Store, w: string, now: int, reason: string, s': Store) {
    exists order :: IsOrder(order, s.jobs.Keys) && FailVisits(s, order, w, now, reason, s')
  }

  function TakenOffline(s: Store, w: string, now: int): Store
    requires w in s.nodes
  {
    s.(nodes := s.nodes[w := s.nodes[w].(status := Offline, updatedAt := now)])
  }

  // ----- the operations -----

  const TIMED_OUT := "worker heartbeat timed out"
  const WENT_OFFLINE := "worker went offline"

  function JoinedNode(id: string, name: string, endpoint: string, res: Resources, now: int): Node {
    Node(id, name, Worker, Online, endpoint, res, now, now)
  }

  ghost predicate Registers(s: Store, node: Node, now: int, s': Store) {
    SchedulesQueue(s.(nodes := s.nodes[node.id := node]), now, s')
  }

  function Refreshed(s: Store, w: string, res: Resources, now: int): Store
    requires w in s.nodes
  {
    s.(nodes := s.nodes[w := s.nodes[w].(status := Online, resources := res, updatedAt := now)])
  }

  ghost predicate Heartbeats(s: Store, w: string, res: Resources, now: int, s': Store) {
    if w !in s.nodes then s' == s else SchedulesQueue(Refreshed(s, w, res, now), now, s')
  }

  ghost predicate GoesOffline(s: Store, w: string, now: int, s': Store) {
    if w !in s.nodes then s' == s
    else FailsActiveJobs(TakenOffline(s, w, now), w, now, WENT_OFFLINE, s')
  }

  ghost predicate NodeVisit(s: Store, w: string, now: int, s': Store) {
    if w in s.nodes && Stale(s.nodes[w], now) then
      FailsActiveJobs(TakenOffline(s, w, now), w, now, TIMED_OUT, s')
    else
      s' == s
  }

  ghost predicate NodeVisits(s: Store, order: seq<string>, now: int, s': Store) {
    if order == [] then s' == s
    else exists m: Store :: NodeVisits(s, Init(order), now, m) && NodeVisit(m, Last(order), now, s')
  }

  /** Listing the nodes takes every timed-out worker offline. */
  ghost predicate ListsNodes(s: Store, now: int, s': Store) {
    exists order :: IsOrder(order, s.nodes.Keys) && NodeVisits(s, order, now, s')
  }

  /** The request names a worker that can take the job at once. */
  predicate AcceptsPin(s: Store, req: CreateRequest, now: int) {
    Eligible(s, req.assignedTo, req.requirements, now)
  }

  function FirstDispatch(j: Job, w: string): Job {
    j.(assignedTo := w, status := Scheduled, attempts := 1)
  }

  ghost predicate Places(s: Store, id: string, req: CreateRequest, now: int, job: Job) {
    var j := NewJob(id, req, now);
    var unplaced := j.(lastFailure := WaitingReason(s, req.requirements, now));
    if req.noAutoAssign then
      job == j.(assignedTo := req.assignedTo, lastFailure := FOR_COORDINATOR)
    else if req.assignedTo != "" then
      job == if AcceptsPin(s, req, now) then FirstDispatch(j, req.assignedTo) else unplaced
    else
      exists w :: IsPick(s, req.requirements, {}, now, w) && job == if w == "" then unplaced else FirstDispatch(j, w)
  }

  ghost predicate Creates(s: Store, id: string, req: CreateRequest, now: int, s': Store) {
    exists job :: Places(s, id, req, now, job) && s' == SetJob(s, id, job)
  }

  ghost predicate CreatesBatch(s: Store, ids: seq<string>, reqs: seq<CreateRequest>, now: int, s': Store)
    requires |ids| == |reqs|
  {
    if ids == [] then s' == s
    else exists m: Store ::
      && CreatesBatch(s, Init(ids), Init(reqs), now, m)
      && Creates(m, Last(ids), Last(reqs), now, s')
  }

  function Started(j: Job, now: int): Job {
    j.(status := Running, startedAt := now, updatedAt := now)
  }

  ghost predicate Polls(s: Store, w: string, now: int, s': Store) {
    if forall id :: id in s.jobs ==> !(s.jobs[id].assignedTo == w && s.jobs[id].status == Scheduled) then
      s' == s
    else
      exists id :: id in s.jobs && s.jobs[id].assignedTo == w && s.jobs[id].status == Scheduled
        && s' == SetJob(s, id, Started(s.jobs[id], now))
  }

  /** A worker's report on a job. `summary` replaces the result of a finished model deletion. */
  datatype Report = Report(nodeId: string, result: string, error: string, summary: string)

  function Reported(j: Job, rep: Report, now: int): Job {
    j.(result := RawResult(rep.result), error := rep.error, updatedAt := now)
  }

  function Finished(j: Job, rep: Report, now: int): Job {
    var done := Reported(j, rep, now).(status := Succeeded, finishedAt := now);
    if j.kind == JOB_DELETE then done.(result := RawResult(rep.summary)) else done
  }

  predicate AcceptsReport(s: Store, id: string, rep: Report) {
    id in s.jobs && s.jobs[id].assignedTo == rep.nodeId && s.jobs[id].status == Running
  }

  /** What the report makes of the job, before the queue is offered to the workers. */
  ghost predicate ReportMakes(s: Store, id: string, rep: Report, now: int, out: Job)
    requires id in s.jobs
  {
    if rep.error == "" then out == Finished(s.jobs[id], rep, now)
    else Reschedules(s, Reported(s.jobs[id], rep, now), rep.nodeId, now, rep.error, out)
  }

  ghost predicate Completes(s: Store, id: string, rep: Report, now: int, s': Store) {
    if !AcceptsReport(s, id, rep) then s' == s
    else exists out :: ReportMakes(s, id, rep, now, out) && SchedulesQueue(SetJob(s, id, out), now, s')
  }

  function Progressed(j: Job, caption: string, now: int): Job {
    j.(result := ProgressNote(caption, now), updatedAt := now)
  }

  predicate Progresses(s: Store, id: string, w: string, caption: string, now: int, s': Store) {
    if id in s.jobs && s.jobs[id].assignedTo == w && s.jobs[id].status == Running
    then s' == SetJob(s, id, Progressed(s.jobs[id], caption, now))
    else s' == s
  }

  function CanceledByOperator(j: Job, now: int): Job {
    j.(status := Canceled, error := "canceled by operator", lastFailure := "", updatedAt := now, finishedAt := now)
  }

  ghost predicate Cancels(s: Store, id: string, now: int, s': Store) {
    if id in s.jobs && !s.jobs[id].IsTerminal()
    then SchedulesQueue(SetJob(s, id, CanceledByOperator(s.jobs[id], now)), now, s')
    else s' == s
  }

  predicate AcceptsStageState(s: Store, id: string, next: Cdip.StageState) {
    id in s.jobs && s.jobs[id].kind == JOB_STAGE && Cdip.CanTransition(Cdip.Current(s.jobs[id].cdipState), next)
  }

  /** A stage job after it moved to CDIP state `next`. */
  function StageMoved(j: Job, next: Cdip.StageState, detail: string, now: int): Job {
    var j := j.(cdipState := next, result := StageNote(next, TrimSpace(detail), now), updatedAt := now);
    match next
    case Preparing =>
      if j.status == Queued && !Blank(j.assignedTo)
      then j.(status := Scheduled, lastFailure := "", attempts := if j.attempts == 0 then 1 else j.attempts)
      else j
    case Completed => j.(status := Succeeded, finishedAt := now)
    case Failed =>
      j.(status := Jobs.Failed, error := TrimSpace(detail), lastFailure := TrimSpace(detail), finishedAt := now)
    case Aborted => j.(status := Canceled, error := TrimSpace(detail), finishedAt := now)
    case _ => j
  }

  predicate MovesStage(s: Store, id: string, next: Cdip.StageState, detail: string, now: int, s': Store) {
    if AcceptsStageState(s, id, next) then s' == SetJob(s, id, StageMoved(s.jobs[id], next, detail, now)) else s' == s
  }

  predicate AcceptsCoordinator(s: Store, id: string) {
    id in s.jobs && s.jobs[id].kind == JOB_DISTRIBUTED
  }

  /** A distributed parent job closed by its coordinator, whatever its status was. */
  function Closed(j: Job, result: string, error: string, now: int): Job {
    var j := j.(result := RawResult(TrimSpace(result)), error := TrimSpace(error), updatedAt := now, finishedAt := now);
    if j.error != "" then j.(status := Failed, lastFailure := j.error) else j.(status := Succeeded)
  }

  predicate Closes(s: Store, id: string, result: string, error: string, now: int, s': Store) {
    if AcceptsCoordinator(s, id) then s' == SetJob(s, id, Closed(s.jobs[id], result, error, now)) else s' == s
  }

  // ----- steps and runs -----

  datatype Op =
    | Register(node: Node)
    | Heartbeat(worker: string, res: Resources)
    | MarkOffline(worker: string)
    | Nodes
    | Create(id: string, req: CreateRequest)
    | CreateBatch(ids: seq<string>, reqs: seq<CreateRequest>)
    | NextJob(worker: string)
    | Complete(id: string, report: Report)
    | Progress(id: string, worker: string, caption: string)
    | Cancel(id: string)
    | MoveStage(id: string, next: Cdip.StageState, detail: string)
    | Close(id: string, result: string, error: string)
    | Benchmark(scores: map<string, real>)

  /** The identifiers an operation mints are new and non-empty, and a joining node is a fresh online worker. */
  ghost predicate Mints(s: Store, op: Op, now: int) {
    match op
    case Register(node) =>
      node.id != "" && node.id !in s.nodes && node.role == Worker && node.status == Online && node.updatedAt == now
    case Create(id, _) => id != "" && id !in s.jobs
    case CreateBatch(ids, reqs) =>
      |ids| == |reqs| && (forall i :: 0 <= i < |ids| ==> ids[i] != "" && ids[i] !in s.jobs)
      && (forall i, j :: 0 <= i < j < |ids| ==> ids[i] != ids[j])
    case _ => true
  }

  ghost predicate Performs(s: Store, op: Op, now: int, s': Store)
    requires Mints(s, op, now)
  {
    match op
    case Register(node) => Registers(s, node, now, s')
    case Heartbeat(w, res) => Heartbeats(s, w, res, now, s')
    case MarkOffline(w) => GoesOffline(s, w, now, s')
    case Nodes => ListsNodes(s, now, s')
    case Create(id, req) => Creates(s, id, req, now, s')
    case CreateBatch(ids, reqs) => CreatesBatch(s, ids, reqs, now, s')
    case NextJob(w) => Polls(s, w, now, s')
    case Complete(id, rep) => Completes(s, id, rep, now, s')
    case Progress(id, w, caption) => Progresses(s, id, w, caption, now, s')
    case Cancel(id) => Cancels(s, id, now, s')
    case MoveStage(id, next, detail) => MovesStage(s, id, next, detail, now, s')
    case Close(id, result, error) => Closes(s, id, result, error, now, s')
    case Benchmark(scores) => s' == s.(scores := scores)
  }

  ghost predicate Step(s: Store, op: Op, now: int, s': Store) {
    Mints(s, op, now) && Performs(s, op, now, s')
  }

  /** The identifiers are keys of their own entries; a new manager starts from the empty maps. */
  predicate WellKeyed(s: Store) {
    && (forall w :: w in s.nodes ==> w != "" && s.nodes[w].id == w)
    && (forall id :: id in s.jobs ==> id != "" && s.jobs[id].id == id)
  }
}
