/** The CDIP coordinator: any number of coordinators drive the stages of one distributed job, each from its
    own stale snapshot, one atomic store call at a time, while everything else in the manager goes on. */
module Coordinator {
  import opened Jobs
  import opened Scheduler
  import StepFacts
  import Cdip

  /** The coordinator actions; `Advance` looks at the stages and then runs one of the others. */
  datatype Action = Prepare | Prefill | Decode | Complete | MockRun

  /** Where a coordinator is between two store calls. */
  datatype Coord =
    | Advancing                                             // about to read the parent, to pick an action
    | Choosing                                              // about to take the snapshot that picks it
    | Entering(action: Action)                              // about to read the parent
    | Snapshotting(action: Action)                          // about to take the action's own snapshot
    | Sending(action: Action, ids: seq<string>, sent: nat)  // `sent` stage updates done
    | Returned

  // ----- the stage jobs of a parent -----

  predicate IsStageOf(j: Job, parent: string) {
    j.kind == JOB_STAGE && j.cdipParent == parent
  }

  function StageIds(s: Store, parent: string): set<string> {
    set id | id in s.jobs && IsStageOf(s.jobs[id], parent)
  }

  /** The order stage jobs are listed in: by stage index, then by creation time. */
  predicate Before(a: Job, b: Job) {
    if a.cdipIndex != b.cdipIndex then a.cdipIndex < b.cdipIndex else a.createdAt < b.createdAt
  }

  /** A listing of the parent's stage jobs: each once, none before one that must precede it. */
  ghost predicate IsStageList(s: Store, parent: string, ids: seq<string>) {
    && IsOrder(ids, StageIds(s, parent))
    && (forall i :: 0 <= i < |ids| ==> ids[i] in s.jobs)
    && forall i, k :: 0 <= i < k < |ids| ==> !Before(s.jobs[ids[k]], s.jobs[ids[i]])
  }

  predicate AllIn(s: Store, ids: seq<string>, state: Cdip.StageState)
    requires forall id :: id in ids ==> id in s.jobs
  {
    forall id :: id in ids ==> s.jobs[id].cdipState == state
  }

  /** The stage state an action requires of its whole snapshot before it sends anything. */
  predicate Guard(action: Action, s: Store, ids: seq<string>)
    requires forall id :: id in ids ==> id in s.jobs
  {
    match action
    case Prefill => AllIn(s, ids, Cdip.Ready)
    case Decode => AllIn(s, ids, Cdip.Prefill)
    case Complete => AllIn(s, ids, Cdip.Decode)
    case _ => true
  }

  // ----- the update loops -----

  datatype Update = Update(id: string, state: Cdip.StageState)

  function Each(ids: seq<string>, state: Cdip.StageState): (us: seq<Update>)
    ensures |us| == |ids| && forall i :: 0 <= i < |ids| ==> us[i] == Update(ids[i], state)
  {
    seq(|ids|, i requires 0 <= i < |ids| => Update(ids[i], state))
  }

  /** The mock coordinator prepares a stage and marks it ready before it turns to the next. */
  function PrepareReady(ids: seq<string>): (us: seq<Update>)
    ensures |us| == 2 * |ids|
    ensures forall i :: 0 <= i < |ids| ==>
      us[2 * i] == Update(ids[i], Cdip.Preparing) && us[2 * i + 1] == Update(ids[i], Cdip.Ready)
  {
    if ids == [] then []
    else PrepareReady(ids[..|ids| - 1]) + [Update(ids[|ids| - 1], Cdip.Preparing), Update(ids[|ids| - 1], Cdip.Ready)]
  }

  /** The stage updates of an action, in the order its loops send them. */
  function Script(action: Action, ids: seq<string>): seq<Update> {
    match action
    case Prepare => Each(ids, Cdip.Preparing)
    case Prefill => Each(ids, Cdip.Prefill)
    case Decode => Each(ids, Cdip.Decode)
    case Complete => Each(ids, Cdip.Completed)
    case MockRun =>
      PrepareReady(ids) + Each(ids, Cdip.Prefill) + Each(ids, Cdip.Decode) + Each(ids, Cdip.Completed)
  }

  /** The actions that close the parent after their last update. */
  predicate ClosesParent(action: Action) {
    action in {Action.Complete, MockRun}
  }

  // ----- the system -----

  /** How far a stage state is along the protocol; failing and aborting are no progress. */
  function Phase(state: Cdip.StageState): nat {
    match state
    case Preparing => 1
    case Ready => 2
    case Prefill => 3
    case Decode => 4
    case Completed => 5
    case _ => 0
  }

  /** The store, the coordinators at work, and for each stage the furthest phase it ever reached. */
  datatype Sys = Sys(store: Store, coords: map<nat, Coord>, marks: map<string, nat>)

  function Mark(marks: map<string, nat>, store: Store): map<string, nat>
    requires forall id :: id in marks ==> id in store.jobs
  {
    map id | id in marks ::
      if Phase(store.jobs[id].cdipState) > marks[id] then Phase(store.jobs[id].cdipState) else marks[id]
  }

  /** What one stage update makes of the store. */
  ghost predicate Sends(s: Store, u: Update, detail: string, now: int, s': Store) {
    Step(s, MoveStage(u.id, u.state, detail), now, s')
  }

  predicate ParentOpen(s: Store, parent: string) {
    parent in s.jobs && s.jobs[parent].kind == JOB_DISTRIBUTED && !s.jobs[parent].IsTerminal()
  }

  /** The action `Advance` runs when its snapshot shows every stage in one state. */
  ghost predicate Chooses(s: Store, ids: seq<string>, next: Coord)
    requires forall id :: id in ids ==> id in s.jobs
  {
    if |ids| < 2 then next == Returned
    else if forall id :: id in ids ==> Cdip.Current(s.jobs[id].cdipState) == Cdip.Planned then next == Entering(Prepare)
    else if AllIn(s, ids, Cdip.Ready) then next == Entering(Prefill)
    else if AllIn(s, ids, Cdip.Prefill) then next == Entering(Decode)
    else if AllIn(s, ids, Cdip.Decode) then next == Entering(Action.Complete)
    else next == Returned
  }

  /** One store call of a coordinator. An action may also give up right after its snapshot: a message that
      does not validate and a failed activation relay end it before the first update. */
  ghost predicate Acts(s: Store, parent: string, c: Coord, now: int, s': Store, c': Coord) {
    match c
    case Advancing => s' == s && c' == if ParentOpen(s, parent) then Choosing else Returned
    case Choosing => s' == s && exists ids :: IsStageList(s, parent, ids) && Chooses(s, ids, c')
    case Entering(action) => s' == s && c' == if ParentOpen(s, parent) then Snapshotting(action) else Returned
    case Snapshotting(action) =>
      && s' == s
      && exists ids :: IsStageList(s, parent, ids)
           && (c' == Returned || (|ids| >= 2 && Guard(action, s, ids) && c' == Sending(action, ids, 0)))
    case Sending(action, ids, sent) =>
      if sent < |Script(action, ids)| then
        var u := Script(action, ids)[sent];
        && (exists detail :: Sends(s, u, detail, now, s'))
        && c' == if AcceptsStageState(s, u.id, u.state) then Sending(action, ids, sent + 1) else Returned
      else
        && c' == Returned
        && if ClosesParent(action) then exists result :: Step(s, Close(parent, result, ""), now, s') else s' == s
    case Returned => s' == s && c' == Returned
  }

  /** Everything else that happens in the manager: any operation, except that the stages of this parent are
      moved only to preparing, ready, failed or aborted, that nobody but its coordinators closes it, and that
      it gets no further stage jobs. */
  predicate Allowed(s: Store, parent: string, op: Op) {
    match op
    case MoveStage(id, next, _) =>
      id in StageIds(s, parent) ==> next in {Cdip.Preparing, Cdip.Ready, Cdip.Failed, Cdip.Aborted}
    case Close(id, _, _) => id != parent
    case Create(_, req) => !(req.kind == JOB_STAGE && req.cdipParent == parent)
    case CreateBatch(_, reqs) => forall i :: 0 <= i < |reqs| ==>
      !(reqs[i].kind == JOB_STAGE && reqs[i].cdipParent == parent)
    case _ => true
  }

  datatype Event = Spawn(id: nat, start: Coord) | Act(id: nat) | Outside(op: Op)

  ghost predicate Next(sys: Sys, parent: string, e: Event, now: int, sys': Sys) {
    && (forall id :: id in sys.marks ==> id in sys'.store.jobs) && sys'.marks == Mark(sys.marks, sys'.store)
    && match e
       case Spawn(id, start) =>
         && id !in sys.coords && (start.Advancing? || start.Entering?)
         && sys'.store == sys.store && sys'.coords == sys.coords[id := start]
       case Act(id) =>
         && id in sys.coords && id in sys'.coords && sys'.coords == sys.coords[id := sys'.coords[id]]
         && Acts(sys.store, parent, sys.coords[id], now, sys'.store, sys'.coords[id])
       case Outside(op) =>
         && Allowed(sys.store, parent, op) && Step(sys.store, op, now, sys'.store)
         && sys'.coords == sys.coords
  }

  /** No coordinator yet, and every stage of the parent planned. */
  ghost predicate Initial(sys: Sys, parent: string) {
    && StepFacts.Valid(sys.store) && sys.coords == map[]
    && sys.marks == (map id | id in StageIds(sys.store, parent) :: 0)
    && forall id :: id in StageIds(sys.store, parent) ==> Cdip.Current(sys.store.jobs[id].cdipState) == Cdip.Planned
  }

  ghost predicate IsSysRun(run: seq<Sys>, parent: string, events: seq<Event>, nows: seq<int>) {
    && |run| == |events| + 1 == |nows| + 1
    && Initial(run[0], parent)
    && forall i :: 0 <= i < |events| ==> Next(run[i], parent, events[i], nows[i], run[i + 1])
  }
}
