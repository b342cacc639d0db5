/** The coordinator protocol is safe: the stages advance together, and the parent is committed only when all
    of them are complete. */
module Barrier {
  import opened Jobs
  import opened Scheduler
  import opened Coordinator
  import LoopFacts
  import Placement
  import Lifecycle
  import StepFacts
  import Runs
  import Text
  import Cdip

  // ----- the invariant -----

  /** The mark of a stage is the phase it is in, unless it failed or was aborted; a complete stage stays so. */
  predicate MarkFits(state: Cdip.StageState, mark: nat) {
    && mark <= 5
    && (state in {Cdip.Unset, Cdip.Planned, Cdip.Preparing, Cdip.Ready, Cdip.Prefill, Cdip.Decode, Cdip.Completed} ==>
          mark == Phase(state))
    && (mark == 5 ==> state == Cdip.Completed)
    && !state.Other?
  }

  /** What an action's snapshot established about every stage. */
  function Floor(action: Action): nat {
    match action
    case Prefill => 2
    case Decode => 3
    case Complete => 4
    case _ => 0
  }

  /** All a coordinator knows for good: its snapshot lists the stages, they all passed its guard, and every
      update it has sent was taken. */
  ghost predicate Knows(marks: map<string, nat>, c: Coord) {
    c.Sending? ==>
      && (forall id :: id in c.ids <==> id in marks)
      && c.sent <= |Script(c.action, c.ids)|
      && (forall id :: id in marks ==> marks[id] >= Floor(c.action))
      && (forall k :: 0 <= k < c.sent ==> Taken(marks, Script(c.action, c.ids)[k]))
  }

  predicate Taken(marks: map<string, nat>, u: Update) {
    u.id in marks && marks[u.id] >= Phase(u.state)
  }

  /** Once a stage is in prefill or beyond, no stage is more than one phase behind it. */
  ghost predicate InStep(marks: map<string, nat>) {
    forall a, b :: a in marks && b in marks && marks[a] >= 3 ==> marks[b] + 1 >= marks[a]
  }

  ghost predicate Inv(sys: Sys, parent: string) {
    && StepFacts.Valid(sys.store)
    && sys.marks.Keys == StageIds(sys.store, parent)
    && (forall id :: id in sys.marks ==> MarkFits(sys.store.jobs[id].cdipState, sys.marks[id]))
    && (forall id :: id in sys.marks ==> Lifecycle.EndsAgree(sys.store.jobs[id]))
    && (forall c :: c in sys.coords ==> Knows(sys.marks, sys.coords[c]))
    && InStep(sys.marks)
  }

  // ----- scripts never run ahead -----

  /** An update that takes stages into phase p, p >= 3, comes only after the guard or earlier updates of the
      same script took every stage into phase p - 1. */
  lemma ScriptWaits(action: Action, ids: seq<string>, sent: nat, id: string) returns (earlier: nat)
    requires sent < |Script(action, ids)| && id in ids
    requires Phase(Script(action, ids)[sent].state) >= 3
    ensures Floor(action) + 1 >= Phase(Script(action, ids)[sent].state)
      || (earlier < sent && Script(action, ids)[earlier].id == id
          && Phase(Script(action, ids)[earlier].state) + 1 == Phase(Script(action, ids)[sent].state))
  {
    earlier := 0;
    if action == MockRun {
      earlier := MockWaits(ids, sent, id);
    }
  }

  lemma MockWaits(ids: seq<string>, sent: nat, id: string) returns (earlier: nat)
    requires sent < |Script(MockRun, ids)| && id in ids
    requires Phase(Script(MockRun, ids)[sent].state) >= 3
    ensures earlier < sent && Script(MockRun, ids)[earlier].id == id
    ensures Phase(Script(MockRun, ids)[earlier].state) + 1 == Phase(Script(MockRun, ids)[sent].state)
  {
    hide Script;
    var n := |ids|;
    var i :| 0 <= i < n && ids[i] == id;
    MockAt(ids, i);
    MockPhases(ids, sent);
    earlier := if sent < 3 * n then 2 * i + 1 else if sent < 4 * n then 2 * n + i else 3 * n + i;
  }

  /** Where the mock coordinator's script updates stage `i`. */
  lemma MockAt(ids: seq<string>, i: nat)
    requires i < |ids|
    ensures var us, n := Script(MockRun, ids), |ids|;
      && |us| == 5 * n
      && us[2 * i + 1] == Update(ids[i], Cdip.Ready)
      && us[2 * n + i] == Update(ids[i], Cdip.Prefill)
      && us[3 * n + i] == Update(ids[i], Cdip.Decode)
      && us[4 * n + i] == Update(ids[i], Cdip.Completed)
  {
    var r, p, d, c := PrepareReady(ids), Each(ids, Cdip.Prefill), Each(ids, Cdip.Decode), Each(ids, Cdip.Completed);
    assert Script(MockRun, ids) == r + (p + (d + c));
    assert (r + (p + (d + c)))[2 * i + 1] == r[2 * i + 1];
  }

  /** The phases of the mock coordinator's script go up loop by loop. */
  lemma MockPhases(ids: seq<string>, k: nat)
    requires k < |Script(MockRun, ids)|
    ensures var phase, n := Phase(Script(MockRun, ids)[k].state), |ids|;
      && (k < 2 * n ==> phase <= 2)
      && (2 * n <= k < 3 * n ==> phase == 3)
      && (3 * n <= k < 4 * n ==> phase == 4)
      && (4 * n <= k ==> phase == 5)
  {
    if k < 2 * |ids| {
      PreparesOnly(ids, k);
    }
  }

  lemma {:induction false} PreparesOnly(ids: seq<string>, k: nat)
    requires k < |PrepareReady(ids)|
    ensures Phase(PrepareReady(ids)[k].state) <= 2
  {
    if k < 2 * (|ids| - 1) {
      PreparesOnly(ids[..|ids| - 1], k);
    }
  }

  /** A script that closes the parent has completed every stage by its end. */
  lemma ScriptCompletes(action: Action, ids: seq<string>, id: string) returns (k: nat)
    requires ClosesParent(action) && id in ids
    ensures k < |Script(action, ids)| && Script(action, ids)[k] == Update(id, Cdip.Completed)
  {
    var i :| 0 <= i < |ids| && ids[i] == id;
    MockAt(ids, i);
    k := if action == MockRun then 4 * |ids| + i else i;
  }

  /** A script only updates the stages of its snapshot. */
  lemma ScriptStays(action: Action, ids: seq<string>, k: nat)
    requires k < |Script(action, ids)|
    ensures Script(action, ids)[k].id in ids
  {
    if action == MockRun && k < 2 * |ids| {
      PreparesWithin(ids, k);
      assert Script(action, ids)[k] == PrepareReady(ids)[k];
    }
  }

  lemma {:induction false} PreparesWithin(ids: seq<string>, k: nat)
    requires k < |PrepareReady(ids)|
    ensures PrepareReady(ids)[k].id in ids
  {
    if k < 2 * (|ids| - 1) {
      PreparesWithin(ids[..|ids| - 1], k);
      assert PrepareReady(ids)[k].id in ids[..|ids| - 1];
    }
  }

  // ----- one store step -----

  /** A stage keeps its kind and parent, so the stages of a parent are fixed unless new ones are created. */
  lemma StagesFixed(s: Store, parent: string, op: Op, now: int, s': Store)
    requires StepFacts.Valid(s) && Step(s, op, now, s')
    requires Allowed(s, parent, op) || op.MoveStage? || op.Close?
    ensures StageIds(s', parent) == StageIds(s, parent)
  {
    hide StepFacts.Valid, Step, Lifecycle.Moves;
    Runs.StepKeeps(s, op, now, s');
    forall id | id in s.jobs ensures id in s'.jobs && (IsStageOf(s'.jobs[id], parent) <==>
      IsStageOf(s.jobs[id], parent)) {
      StepFacts.MovesSound(s.jobs[id], s'.jobs[id]);
    }
    forall id | id in s'.jobs && id !in s.jobs ensures !IsStageOf(s'.jobs[id], parent) {
      NewJobIsRequested(s, op, now, s', id);
    }
  }

  /** A job that was not there before was asked for by a create request. */
  lemma NewJobIsRequested(s: Store, op: Op, now: int, s': Store, id: string)
    requires StepFacts.Valid(s) && Step(s, op, now, s') && id in s'.jobs && id !in s.jobs
    ensures op.Create? || op.CreateBatch?
    ensures op.Create? ==> SameOrigin(s'.jobs[id], op.req)
    ensures op.CreateBatch? ==> exists i :: 0 <= i < |op.reqs| && SameOrigin(s'.jobs[id], op.reqs[i])
  {
    hide StepFacts.Valid, Load, SchedulesQueue, Completes, Cancels, ListsNodes, FailsActiveJobs, CreatesBatch;
    match op
    case Create(k, req) =>
    case CreateBatch(ids, reqs) => BatchJobIsRequested(s, ids, reqs, now, s', id);
    case MoveStage(_, _, _) =>
    case Close(_, _, _) =>
    case _ => Runs.OthersKeepStages(s, op, now, s');
  }

  predicate SameOrigin(j: Job, req: CreateRequest) {
    j.kind == req.kind && j.cdipParent == req.cdipParent
  }

  lemma {:induction false} BatchJobIsRequested(
      s: Store, ids: seq<string>, reqs: seq<CreateRequest>, now: int, s': Store, id: string)
    requires |ids| == |reqs| && CreatesBatch(s, ids, reqs, now, s') && id in s'.jobs && id !in s.jobs
    ensures exists i :: 0 <= i < |reqs| && SameOrigin(s'.jobs[id], reqs[i])
    decreases |ids|
  {
    hide Load;
    if ids != [] {
      var m: Store :| CreatesBatch(s, Init(ids), Init(reqs), now, m) && Creates(m, Last(ids), Last(reqs), now, s');
      if id == Last(ids) {
        assert SameOrigin(s'.jobs[id], reqs[|reqs| - 1]);
      } else {
        BatchJobIsRequested(s, Init(ids), Init(reqs), now, m, id);
        var i :| 0 <= i < |Init(reqs)| && SameOrigin(m.jobs[id], Init(reqs)[i]);
        assert SameOrigin(s'.jobs[id], reqs[i]);
      }
    }
  }

  /** A mark moves up by at most one phase, and past ready only by an accepted stage move to that phase. */
  lemma MarkMoves(from: Cdip.StageState, to: Cdip.StageState, mark: nat)
    requires MarkFits(from, mark)
    requires to == from || (Cdip.CanTransition(Cdip.Current(from), to) && !to.Other? && !to.Unset?)
    ensures var mark' := if Phase(to) > mark then Phase(to) else mark;
      MarkFits(to, mark') && (mark' == mark || mark' == mark + 1 == Phase(to))
  {
  }

  // ----- the invariant is kept -----

  /** Marks only grow, so what a coordinator knows stays true. */
  lemma KnowledgeStays(marks: map<string, nat>, marks': map<string, nat>, c: Coord)
    requires Knows(marks, c) && marks'.Keys == marks.Keys
    requires forall id :: id in marks ==> marks'[id] >= marks[id]
    ensures Knows(marks', c)
  {
    if c.Sending? {
      forall k | 0 <= k < c.sent ensures Taken(marks', Script(c.action, c.ids)[k]) {
        assert Taken(marks, Script(c.action, c.ids)[k]);
      }
    }
  }

  /** A stage may be moved to this state: no stage is further behind than one phase. */
  ghost predicate IsDue(marks: map<string, nat>, next: Cdip.StageState) {
    && !next.Other? && !next.Unset?
    && (Phase(next) >= 3 ==> forall b :: b in marks ==> marks[b] + 1 >= Phase(next))
  }

  /** A store step that moves at most stage `id`, and past ready only when every stage is close enough. */
  lemma StoreStepKeeps(sys: Sys, parent: string, op: Op, now: int, s': Store)
    requires Inv(sys, parent) && Step(sys.store, op, now, s')
    requires Allowed(sys.store, parent, op) || op.MoveStage? || op.Close?
    requires op.MoveStage? && op.id in sys.marks ==> IsDue(sys.marks, op.next)
    ensures StepFacts.Valid(s') && StageIds(s', parent) == sys.marks.Keys
    ensures forall id :: id in sys.marks ==> MarkFits(s'.jobs[id].cdipState, Mark(sys.marks, s')[id])
    ensures forall id :: id in sys.marks ==> Mark(sys.marks, s')[id] >= sys.marks[id]
    ensures forall id :: id in sys.marks ==> Lifecycle.EndsAgree(s'.jobs[id])
    ensures InStep(Mark(sys.marks, s'))
    ensures op.MoveStage? && op.id in sys.marks && AcceptsStageState(sys.store, op.id, op.next) ==>
      Taken(Mark(sys.marks, s'), Update(op.id, op.next))
  {
    hide StepFacts.Valid, StepFacts.JobsMove, StepFacts.WithinSlots, Placement.Overfills, Lifecycle.EndsAgree;
    hide Knows, Step, InStep, MarkFits, AcceptsStageState, Allowed;
    StagesFixed(sys.store, parent, op, now, s');
    Runs.StepKeeps(sys.store, op, now, s');
    StageEndsStay(sys.store, parent, s');
    var marks' := Mark(sys.marks, s');
    forall id | id in sys.marks
      ensures MarkFits(s'.jobs[id].cdipState, marks'[id])
      ensures marks'[id] == sys.marks[id]
        || (op.MoveStage? && op.id == id && marks'[id] == sys.marks[id] + 1 == Phase(op.next))
    {
      MarkStep(sys.store, op, now, s', id, sys.marks[id]);
    }
    if op.MoveStage? && op.id in sys.marks {
      MarkStep(sys.store, op, now, s', op.id, sys.marks[op.id]);
      MarksStayInStep(sys.marks, marks', op.id, op.next);
    } else {
      assert marks' == sys.marks;
    }
  }

  /** The CDIP end state of a stage job stays in agreement with its status. */
  lemma StageEndsStay(s: Store, parent: string, s': Store)
    requires StepFacts.JobsMove(s, s')
    requires forall id :: id in StageIds(s, parent) ==> Lifecycle.EndsAgree(s.jobs[id])
    ensures forall id :: id in StageIds(s, parent) ==> id in s'.jobs && Lifecycle.EndsAgree(s'.jobs[id])
  {
    hide Lifecycle.Makes, Lifecycle.EndsAgree;
    forall id | id in StageIds(s, parent) ensures id in s'.jobs && Lifecycle.EndsAgree(s'.jobs[id]) {
      var m :| Lifecycle.Makes(m, s.jobs[id], s'.jobs[id]);
      Lifecycle.EndsStayAgreed(m, s.jobs[id], s'.jobs[id]);
    }
  }

  /** What a store step does to the mark of one stage. */
  lemma MarkStep(s: Store, op: Op, now: int, s': Store, id: string, mark: nat)
    requires StepFacts.Valid(s) && Step(s, op, now, s') && id in s.jobs && MarkFits(s.jobs[id].cdipState, mark)
    requires op.MoveStage? && op.id == id ==> !op.next.Other? && !op.next.Unset?
    ensures id in s'.jobs
    ensures var mark' := if Phase(s'.jobs[id].cdipState) > mark then Phase(s'.jobs[id].cdipState) else mark;
      && MarkFits(s'.jobs[id].cdipState, mark')
      && (mark' == mark || (op.MoveStage? && op.id == id && mark' == mark + 1 == Phase(op.next)))
      && (op.MoveStage? && op.id == id && AcceptsStageState(s, id, op.next) ==> mark' >= Phase(op.next))
  {
    hide StepFacts.Valid, Step, AcceptsStageState;
    StageStep(s, op, now, s', id);
    MarkMoves(s.jobs[id].cdipState, s'.jobs[id].cdipState, mark);
  }

  /** One stage moving up to a phase that is due keeps the stages in step. */
  lemma MarksStayInStep(marks: map<string, nat>, marks': map<string, nat>, id: string, next: Cdip.StageState)
    requires InStep(marks) && IsDue(marks, next) && marks'.Keys == marks.Keys && id in marks
    requires forall k :: k in marks && k != id ==> marks'[k] == marks[k]
    requires marks'[id] == marks[id] || marks'[id] == marks[id] + 1 == Phase(next)
    ensures InStep(marks')
  {
  }

  /** What a store step does to the CDIP state of one stage job. */
  lemma StageStep(s: Store, op: Op, now: int, s': Store, id: string)
    requires StepFacts.Valid(s) && Step(s, op, now, s') && id in s.jobs
    ensures id in s'.jobs
    ensures op.MoveStage? && op.id == id && AcceptsStageState(s, id, op.next) ==>
      s'.jobs[id].cdipState == op.next && Cdip.CanTransition(Cdip.Current(s.jobs[id].cdipState), op.next)
    ensures !(op.MoveStage? && op.id == id && AcceptsStageState(s, id, op.next)) ==>
      s'.jobs[id].cdipState == s.jobs[id].cdipState
  {
    hide StepFacts.Valid;
    if !(op.MoveStage? && op.id == id) {
      Runs.OnlyStageMovesTouchCdip(s, op, now, s', id);
    }
  }

  lemma InitialInv(sys: Sys, parent: string)
    requires Initial(sys, parent)
    ensures Inv(sys, parent)
  {
  }

  /** An update the coordinator is about to send is one every stage is ready for. */
  lemma UpdateIsDue(marks: map<string, nat>, c: Coord)
    requires Knows(marks, c) && c.Sending? && c.sent < |Script(c.action, c.ids)|
    ensures var u := Script(c.action, c.ids)[c.sent];
      u.id in marks && IsDue(marks, u.state)
  {
    var u := Script(c.action, c.ids)[c.sent];
    ScriptStays(c.action, c.ids, c.sent);
    ScriptStates(c.action, c.ids, c.sent);
    if Phase(u.state) >= 3 {
      forall b | b in marks ensures marks[b] + 1 >= Phase(u.state) {
        var k := ScriptWaits(c.action, c.ids, c.sent, b);
        if k < c.sent {
          assert Taken(marks, Script(c.action, c.ids)[k]);
        }
      }
    }
  }

  lemma ScriptStates(action: Action, ids: seq<string>, k: nat)
    requires k < |Script(action, ids)|
    ensures !Script(action, ids)[k].state.Other? && !Script(action, ids)[k].state.Unset?
  {
    if action == MockRun && k < 2 * |ids| {
      PreparesStates(ids, k);
      assert Script(action, ids)[k] == PrepareReady(ids)[k];
    }
  }

  lemma {:induction false} PreparesStates(ids: seq<string>, k: nat)
    requires k < |PrepareReady(ids)|
    ensures PrepareReady(ids)[k].state in {Cdip.Preparing, Cdip.Ready}
  {
    if k < 2 * (|ids| - 1) {
      PreparesStates(ids[..|ids| - 1], k);
    }
  }

  /** A snapshot that passes the guard tells the coordinator that every stage reached the guard's phase. */
  lemma SnapshotTeaches(sys: Sys, parent: string, action: Action, ids: seq<string>)
    requires Inv(sys, parent) && IsStageList(sys.store, parent, ids) && Guard(action, sys.store, ids)
    ensures Knows(sys.marks, Sending(action, ids, 0))
  {
    forall id | id in sys.marks ensures sys.marks[id] >= Floor(action) {
      assert id in ids && MarkFits(sys.store.jobs[id].cdipState, sys.marks[id]);
    }
  }

  lemma NextKeepsInv(sys: Sys, parent: string, e: Event, now: int, sys': Sys)
    requires Inv(sys, parent) && Next(sys, parent, e, now, sys')
    ensures Inv(sys', parent)
    ensures StageIds(sys'.store, parent) == StageIds(sys.store, parent)
    ensures forall id :: id in sys.marks ==> sys'.marks[id] >= sys.marks[id]
  {
    hide Step, StepFacts.Valid, Knows, InStep, Lifecycle.EndsAgree;
    match e
    case Spawn(id, start) =>
      StoreUnchanged(sys, parent);
      assert Knows(sys.marks, start) by {
        SpawnKnows(sys.marks, start);
      }
    case Outside(op) =>
      StoreStepKeeps(sys, parent, op, now, sys'.store);
      AllKnowledgeStays(sys, sys'.marks);
    case Act(id) => ActKeepsInv(sys, parent, id, now, sys');
  }

  lemma SpawnKnows(marks: map<string, nat>, c: Coord)
    requires !c.Sending?
    ensures Knows(marks, c)
  {
  }

  lemma StoreUnchanged(sys: Sys, parent: string)
    requires Inv(sys, parent)
    ensures Mark(sys.marks, sys.store) == sys.marks
  {
    forall id | id in sys.marks ensures Phase(sys.store.jobs[id].cdipState) <= sys.marks[id] {
      assert MarkFits(sys.store.jobs[id].cdipState, sys.marks[id]);
    }
  }

  lemma AllKnowledgeStays(sys: Sys, marks': map<string, nat>)
    requires forall c :: c in sys.coords ==> Knows(sys.marks, sys.coords[c])
    requires marks'.Keys == sys.marks.Keys && forall id :: id in sys.marks ==> marks'[id] >= sys.marks[id]
    ensures forall c :: c in sys.coords ==> Knows(marks', sys.coords[c])
  {
    forall c | c in sys.coords ensures Knows(marks', sys.coords[c]) {
      KnowledgeStays(sys.marks, marks', sys.coords[c]);
    }
  }

  lemma ActKeepsInv(sys: Sys, parent: string, id: nat, now: int, sys': Sys)
    requires Inv(sys, parent) && Next(sys, parent, Act(id), now, sys')
    ensures Inv(sys', parent)
    ensures StageIds(sys'.store, parent) == StageIds(sys.store, parent)
    ensures forall k :: k in sys.marks ==> sys'.marks[k] >= sys.marks[k]
  {
    hide Step, StepFacts.Valid, Knows, InStep, Lifecycle.EndsAgree;
    var c, c' := sys.coords[id], sys'.coords[id];
    StoreUnchanged(sys, parent);
    if c.Sending? && (c.sent < |Script(c.action, c.ids)| || ClosesParent(c.action)) {
      SendKeepsInv(sys, parent, id, now, sys');
    } else {
      assert sys'.store == sys.store;
      if c.Snapshotting? && c'.Sending? {
        var ids :| IsStageList(sys.store, parent, ids) && Guard(c.action, sys.store, ids)
          && c' == Sending(c.action, ids, 0);
        SnapshotTeaches(sys, parent, c.action, ids);
      } else {
        SpawnKnows(sys.marks, c');
      }
    }
  }

  lemma SendKeepsInv(sys: Sys, parent: string, id: nat, now: int, sys': Sys)
    requires Inv(sys, parent) && Next(sys, parent, Act(id), now, sys')
    requires var c := sys.coords[id]; c.Sending? && (c.sent < |Script(c.action, c.ids)| || ClosesParent(c.action))
    ensures Inv(sys', parent)
    ensures StageIds(sys'.store, parent) == StageIds(sys.store, parent)
    ensures forall k :: k in sys.marks ==> sys'.marks[k] >= sys.marks[k]
  {
    hide Step, StepFacts.Valid, Knows, InStep, MarkFits, AcceptsStageState, Script, Lifecycle.EndsAgree;
    var op := SentOp(sys, parent, id, now, sys');
    StoreStepKeeps(sys, parent, op, now, sys'.store);
    AllKnowledgeStays(sys, sys'.marks);
    SentKnows(sys.marks, sys'.marks, sys.coords[id], sys'.coords[id]);
  }

  /** The store operation a sending coordinator performs. */
  lemma SentOp(sys: Sys, parent: string, id: nat, now: int, sys': Sys) returns (op: Op)
    requires Inv(sys, parent) && Next(sys, parent, Act(id), now, sys')
    requires var c := sys.coords[id]; c.Sending? && (c.sent < |Script(c.action, c.ids)| || ClosesParent(c.action))
    ensures Step(sys.store, op, now, sys'.store)
    ensures var c := sys.coords[id];
      if c.sent < |Script(c.action, c.ids)| then
        var u := Script(c.action, c.ids)[c.sent];
        && op.MoveStage? && op.id == u.id && op.next == u.state && u.id in sys.marks && IsDue(sys.marks, u.state)
        && (sys'.coords[id].Sending? ==> AcceptsStageState(sys.store, u.id, u.state))
      else op.Close? && op.id == parent
  {
    hide Step, StepFacts.Valid;
    var c := sys.coords[id];
    if c.sent < |Script(c.action, c.ids)| {
      var u := Script(c.action, c.ids)[c.sent];
      var detail :| Sends(sys.store, u, detail, now, sys'.store);
      op := MoveStage(u.id, u.state, detail);
      UpdateIsDue(sys.marks, c);
    } else {
      var result :| Step(sys.store, Close(parent, result, ""), now, sys'.store);
      op := Close(parent, result, "");
    }
  }

  lemma SentKnows(marks: map<string, nat>, marks': map<string, nat>, c: Coord, c': Coord)
    requires Knows(marks', c) && c.Sending?
    requires c'.Sending? ==>
      && c.sent < |Script(c.action, c.ids)| && c' == c.(sent := c.sent + 1)
      && Taken(marks', Script(c.action, c.ids)[c.sent])
    ensures Knows(marks', c')
  {
  }

  // ----- the theorems -----

  lemma {:induction false} RunKeepsInv(run: seq<Sys>, parent: string, events: seq<Event>, nows: seq<int>, i: nat)
    requires IsSysRun(run, parent, events, nows) && i < |run|
    ensures Inv(run[i], parent)
    decreases i
  {
    hide Inv, Next, Initial;
    if i == 0 {
      InitialInv(run[0], parent);
    } else {
      RunKeepsInv(run, parent, events, nows, i - 1);
      NextKeepsInv(run[i - 1], parent, events[i - 1], nows[i - 1], run[i]);
    }
  }

  /** The barrier. In every run, however the coordinators and the rest of the manager interleave: when a stage
      has ever been in prefill, every stage has been ready; when one has been in decode, every stage has been in
      prefill; and when one has been completed, every stage has been in decode. */
  lemma BarrierHolds(run: seq<Sys>, parent: string, events: seq<Event>, nows: seq<int>, i: nat, a: string, b: string)
    requires IsSysRun(run, parent, events, nows) && i < |run|
    requires a in StageIds(run[i].store, parent) && b in StageIds(run[i].store, parent)
    ensures a in run[i].marks && b in run[i].marks
    ensures run[i].marks[a] >= Phase(Cdip.Prefill) ==> run[i].marks[b] >= Phase(Cdip.Ready)
    ensures run[i].marks[a] >= Phase(Cdip.Decode) ==> run[i].marks[b] >= Phase(Cdip.Prefill)
    ensures run[i].marks[a] >= Phase(Cdip.Completed) ==> run[i].marks[b] >= Phase(Cdip.Decode)
  {
    RunKeepsInv(run, parent, events, nows, i);
  }

  /** The marks mean what they say: a stage's mark is the furthest phase it was in at any time of the run. */
  lemma {:induction false} MarksRecord(
    run: seq<Sys>, parent: string, events: seq<Event>, nows: seq<int>, i: nat, id: string) returns (at: nat)
    requires IsSysRun(run, parent, events, nows) && i < |run| && id in StageIds(run[i].store, parent)
    ensures at <= i && id in run[at].store.jobs && id in run[i].marks
    ensures Phase(run[at].store.jobs[id].cdipState) == run[i].marks[id]
    ensures forall k :: 0 <= k <= i ==>
      id in run[k].store.jobs && Phase(run[k].store.jobs[id].cdipState) <= run[i].marks[id]
    decreases i
  {
    hide Next, InStep, Knows, StepFacts.Valid, Lifecycle.EndsAgree, Phase;
    RunKeepsInv(run, parent, events, nows, i);
    if i == 0 {
      at := 0;
    } else {
      assert Next(run[i - 1], parent, events[i - 1], nows[i - 1], run[i]);
      RunKeepsInv(run, parent, events, nows, i - 1);
      NextKeepsInv(run[i - 1], parent, events[i - 1], nows[i - 1], run[i]);
      at := MarksRecord(run, parent, events, nows, i - 1, id);
      if run[i].marks[id] > run[i - 1].marks[id] {
        at := i;
      }
      NextMarks(run[i - 1], parent, events[i - 1], nows[i - 1], run[i]);
    }
  }

  lemma NextMarks(sys: Sys, parent: string, e: Event, now: int, sys': Sys)
    requires Next(sys, parent, e, now, sys')
    ensures forall id :: id in sys.marks ==> id in sys'.store.jobs
    ensures sys'.marks == Mark(sys.marks, sys'.store)
  {
  }

  /** The coordinator's next store call closes the parent as succeeded. */
  predicate Commits(c: Coord) {
    c.Sending? && c.sent == |Script(c.action, c.ids)| && ClosesParent(c.action)
  }

  /** Commit safety. When a coordinator closes the parent, every stage of its snapshot is complete, that
      snapshot holds every stage of the parent, and they all stay complete, with their jobs succeeded. */
  lemma CommitIsSafe(
      run: seq<Sys>, parent: string, events: seq<Event>, nows: seq<int>, i: nat, k: nat, c: nat, id: string)
    requires IsSysRun(run, parent, events, nows) && i <= k < |run|
    requires c in run[i].coords && Commits(run[i].coords[c])
    requires id in StageIds(run[i].store, parent)
    ensures id in run[i].coords[c].ids
    ensures id in run[k].store.jobs
    ensures run[k].store.jobs[id].cdipState == Cdip.Completed && run[k].store.jobs[id].status == Succeeded
  {
    hide Next, InStep, StepFacts.Valid, Script, IsSysRun, IsStageOf;
    RunKeepsInv(run, parent, events, nows, i);
    var co := run[i].coords[c];
    assert Knows(run[i].marks, co);
    var n := ScriptCompletes(co.action, co.ids, id);
    assert Taken(run[i].marks, Script(co.action, co.ids)[n]);
    MarksGrow(run, parent, events, nows, i, k, id);
    RunKeepsInv(run, parent, events, nows, k);
    assert MarkFits(run[k].store.jobs[id].cdipState, run[k].marks[id]);
    assert Lifecycle.EndsAgree(run[k].store.jobs[id]);
  }

  /** What commit safety does not promise: an operator's cancel does not stop a coordinator that has sent its
      last update. The parent is canceled, and then succeeded. */
  lemma CommitOverridesCancel(sys: Sys, parent: string, c: nat, now: int, mid: Sys, later: int, end: Sys)
    requires StepFacts.Valid(sys.store) && ParentOpen(sys.store, parent) && c in sys.coords && Commits(sys.coords[c])
    requires Next(sys, parent, Outside(Cancel(parent)), now, mid) && Next(mid, parent, Act(c), later, end)
    ensures parent in mid.store.jobs && mid.store.jobs[parent].status == Canceled
    ensures parent in end.store.jobs && end.store.jobs[parent].status == Succeeded
  {
    hide StepFacts.Valid, Load, Acts, Step;
    CancelCancels(sys.store, parent, now, mid.store);
    CommitSucceeds(mid.store, parent, mid.coords[c], later, end.store, end.coords[c]);
  }

  lemma CancelCancels(s: Store, parent: string, now: int, s': Store)
    requires StepFacts.Valid(s) && ParentOpen(s, parent) && Step(s, Cancel(parent), now, s')
    ensures parent in s'.jobs && s'.jobs[parent].status == Canceled && s'.jobs[parent].kind == JOB_DISTRIBUTED
  {
    hide StepFacts.Valid, Load;
    var canceled := SetJob(s, parent, CanceledByOperator(s.jobs[parent], now));
    KeyedValid(s);
    LoopFacts.QueueConservesWork(canceled, now, s');
    assert LoopFacts.QueueTouch(canceled.jobs[parent], s'.jobs[parent]);
  }

  lemma CommitSucceeds(s: Store, parent: string, c: Coord, now: int, s': Store, c': Coord)
    requires Commits(c) && Acts(s, parent, c, now, s', c')
    requires parent in s.jobs && s.jobs[parent].kind == JOB_DISTRIBUTED
    ensures parent in s'.jobs && s'.jobs[parent].status == Succeeded
  {
    hide Script, Load;
    var result :| Step(s, Close(parent, result, ""), now, s');
    assert s'.jobs[parent] == Closed(s.jobs[parent], result, "", now);
    assert Text.TrimSpace("") == "";
  }

  lemma KeyedValid(s: Store)
    requires StepFacts.Valid(s)
    ensures WellKeyed(s)
  {
  }

  lemma {:induction false} MarksGrow(
    run: seq<Sys>, parent: string, events: seq<Event>, nows: seq<int>, i: nat, k: nat, id: string)
    requires IsSysRun(run, parent, events, nows) && i <= k < |run| && id in run[i].marks
    ensures id in run[k].marks && run[k].marks[id] >= run[i].marks[id]
    decreases k - i
  {
    hide Inv, Next;
    if i < k {
      MarksGrow(run, parent, events, nows, i, k - 1, id);
      RunKeepsInv(run, parent, events, nows, k - 1);
      NextKeepsInv(run[k - 1], parent, events[k - 1], nows[k - 1], run[k]);
      NextMarks(run[k - 1], parent, events[k - 1], nows[k - 1], run[k]);
    }
  }
}
