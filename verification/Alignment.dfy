/** No stage is left behind: while the stages of a parent are split across two phases, some coordinator is on its way
    to move the ones behind. */
module Alignment {
  import opened Scheduler
  import opened Coordinator
  import opened Barrier
  import Lifecycle
  import StepFacts
  import Cdip

  /** No stage has failed or been aborted. */
  ghost predicate NoneEnded(sys: Sys) {
    forall id :: id in sys.marks ==> id in sys.store.jobs && !HasEnded(sys.store.jobs[id].cdipState)
  }

  predicate HasEnded(state: Cdip.StageState) {
    state == Cdip.Failed || state == Cdip.Aborted
  }

  /** Stage `b` is ready or further, and some stage is ahead of it. */
  ghost predicate IsBehind(marks: map<string, nat>, b: string) {
    b in marks && marks[b] >= 2 && exists a :: a in marks && marks[a] > marks[b]
  }

  /** The coordinator has an update to send. */
  predicate HasNext(c: Coord) {
    c.Sending? && c.sent < |Script(c.action, c.ids)|
  }

  function NextUpdate(c: Coord): Update
    requires HasNext(c)
  {
    Script(c.action, c.ids)[c.sent]
  }

  /** The coordinator is sending the updates of phase `phase`, and the one for stage `b` is still to come. */
  predicate IsMoving(c: Coord, phase: nat, b: string) {
    && HasNext(c) && Phase(NextUpdate(c).state) == phase
    && exists k :: c.sent <= k < |Script(c.action, c.ids)| && Moves(Script(c.action, c.ids)[k], phase, b)
  }

  predicate Moves(u: Update, phase: nat, b: string) {
    u.id == b && Phase(u.state) == phase
  }

  ghost predicate NobodyStranded(sys: Sys) {
    forall b :: b in sys.marks && IsBehind(sys.marks, b) ==> SomeoneMoves(sys.coords, sys.marks[b] + 1, b)
  }

  ghost predicate SomeoneMoves(coords: map<nat, Coord>, phase: nat, b: string) {
    exists c :: c in coords && IsMoving(coords[c], phase, b)
  }

  // ----- scripts -----

  /** A script sends the updates of a late phase in one go. */
  lemma PhasesAreTogether(action: Action, ids: seq<string>, i: nat, m: nat, k: nat)
    requires i <= m <= k < |Script(action, ids)|
    requires Phase(Script(action, ids)[i].state) == Phase(Script(action, ids)[k].state) >= 3
    ensures Phase(Script(action, ids)[m].state) == Phase(Script(action, ids)[i].state)
  {
    if action == MockRun {
      hide Script, Phase;
      MockPhases(ids, i);
      MockPhases(ids, m);
      MockPhases(ids, k);
    }
  }

  /** The script that sends one stage into a late phase sends every stage there. */
  lemma ScriptMovesAll(action: Action, ids: seq<string>, i: nat, b: string) returns (k: nat)
    requires i < |Script(action, ids)| && Phase(Script(action, ids)[i].state) >= 3 && b in ids
    ensures k < |Script(action, ids)| && Moves(Script(action, ids)[k], Phase(Script(action, ids)[i].state), b)
  {
    var j :| 0 <= j < |ids| && ids[j] == b;
    if action == MockRun {
      k := MockMovesAll(ids, i, j);
    } else {
      k := j;
    }
  }

  lemma MockMovesAll(ids: seq<string>, i: nat, j: nat) returns (k: nat)
    requires i < |Script(MockRun, ids)| && Phase(Script(MockRun, ids)[i].state) >= 3 && j < |ids|
    ensures k < |Script(MockRun, ids)|
    ensures Moves(Script(MockRun, ids)[k], Phase(Script(MockRun, ids)[i].state), ids[j])
  {
    MockPhases(ids, i);
    MockAt(ids, j);
    hide Script;
    k := if i < 3 * |ids| then 2 * |ids| + j else if i < 4 * |ids| then 3 * |ids| + j else 4 * |ids| + j;
  }

  // ----- one step -----

  /** A store step raises at most one mark, by one, and to the phase the stage was sent to. */
  lemma MarksAfter(sys: Sys, parent: string, op: Op, now: int, s': Store)
    requires Inv(sys, parent) && Step(sys.store, op, now, s')
    requires op.MoveStage? && op.id in sys.marks ==> !op.next.Other? && !op.next.Unset?
    ensures forall id :: id in sys.marks ==> id in s'.jobs
    ensures forall id :: id in sys.marks ==>
      var mark' := Mark(sys.marks, s')[id];
      mark' == sys.marks[id] || (op.MoveStage? && op.id == id && mark' == sys.marks[id] + 1 == Phase(op.next))
    ensures op.MoveStage? && op.id in sys.marks && AcceptsStageState(sys.store, op.id, op.next) ==>
      Mark(sys.marks, s')[op.id] >= Phase(op.next)
  {
    hide StepFacts.Valid, Knows, Step, InStep, MarkFits, AcceptsStageState, Lifecycle.EndsAgree;
    forall id | id in sys.marks
      ensures id in s'.jobs
      ensures var mark' := if Phase(s'.jobs[id].cdipState) > sys.marks[id] then Phase(s'.jobs[id].cdipState) else
        sys.marks[id];
        && (mark' == sys.marks[id] || (op.MoveStage? && op.id == id && mark' == sys.marks[id] + 1 == Phase(op.next)))
        && (op.MoveStage? && op.id == id && AcceptsStageState(sys.store, id, op.next) ==> mark' >= Phase(op.next))
    {
      MarkStep(sys.store, op, now, s', id, sys.marks[id]);
    }
  }

  /** A stage that has not ended takes an update that is due, unless it is already past it. */
  lemma TakenUnlessPast(state: Cdip.StageState, mark: nat, next: Cdip.StageState)
    requires MarkFits(state, mark) && !HasEnded(state) && !next.Other? && !next.Unset?
    requires Phase(next) >= 3 && mark <= Phase(next) <= mark + 1
    ensures Cdip.CanTransition(Cdip.Current(state), next)
  {
  }

  lemma OutsideStaysBehind(marks: map<string, nat>, marks': map<string, nat>, b: string)
    requires marks'.Keys == marks.Keys && InStep(marks) && IsBehind(marks', b)
    requires forall id :: id in marks ==> marks'[id] == marks[id] || (marks'[id] == marks[id] + 1 <= 2)
    ensures marks'[b] == marks[b] && IsBehind(marks, b)
  {
    var a :| a in marks' && marks'[a] > marks'[b];
    assert marks'[a] == marks[a];
  }

  /** Stages that are not moved by a coordinator are moved no further than ready. */
  lemma OutsideMarks(sys: Sys, parent: string, op: Op, now: int, sys': Sys)
    requires Inv(sys, parent) && Next(sys, parent, Outside(op), now, sys')
    ensures sys'.marks.Keys == sys.marks.Keys && sys'.coords == sys.coords
    ensures forall id :: id in sys.marks ==>
      sys'.marks[id] == sys.marks[id] || (sys'.marks[id] == sys.marks[id] + 1 <= 2)
  {
    hide StepFacts.Valid, Knows, Step, MarkFits, InStep, Lifecycle.EndsAgree, AcceptsStageState;
    MarksAfter(sys, parent, op, now, sys'.store);
  }

  /** So nobody falls behind by them. */
  lemma OutsideStrandsNobody(sys: Sys, parent: string, op: Op, now: int, sys': Sys)
    requires Inv(sys, parent) && Next(sys, parent, Outside(op), now, sys') && NobodyStranded(sys)
    ensures NobodyStranded(sys')
  {
    hide StepFacts.Valid, Knows, Next, MarkFits, IsMoving, IsBehind, InStep, Lifecycle.EndsAgree;
    OutsideMarks(sys, parent, op, now, sys');
    forall b | b in sys'.marks && IsBehind(sys'.marks, b) ensures SomeoneMoves(sys'.coords, sys'.marks[b] + 1, b) {
      OutsideStaysBehind(sys.marks, sys'.marks, b);
    }
  }

  /** A coordinator that is not sending moves nothing, and nobody relies on it. */
  lemma WaitingStrandsNobody(sys: Sys, parent: string, id: nat, now: int, sys': Sys)
    requires Inv(sys, parent) && Next(sys, parent, Act(id), now, sys') && NobodyStranded(sys)
    requires !HasNext(sys.coords[id])
    ensures sys'.marks == sys.marks ==> NobodyStranded(sys')
  {
    hide StepFacts.Valid, Knows, Step, MarkFits, IsBehind, Acts, InStep, Lifecycle.EndsAgree;
    if sys'.marks == sys.marks {
      forall b | b in sys'.marks && IsBehind(sys'.marks, b) ensures SomeoneMoves(sys'.coords, sys'.marks[b] + 1, b) {
        var c :| c in sys.coords && IsMoving(sys.coords[c], sys.marks[b] + 1, b);
        assert c != id by {
          assert IsMoving(sys.coords[c], sys.marks[b] + 1, b) ==> HasNext(sys.coords[c]);
        }
        assert IsMoving(sys'.coords[c], sys.marks[b] + 1, b);
      }
    }
  }

  /** A sent update: the stages it leaves behind are further down the same loop. */
  lemma SendingStrandsNobody(sys: Sys, parent: string, id: nat, now: int, sys': Sys)
    requires Inv(sys, parent) && NoneEnded(sys) && Next(sys, parent, Act(id), now, sys') && NobodyStranded(sys)
    requires HasNext(sys.coords[id])
    ensures NobodyStranded(sys')
  {
    hide Inv, Next, NoneEnded, NobodyStranded, HasNext, IsBehind, SomeoneMoves;
    forall b | b in sys'.marks && IsBehind(sys'.marks, b) ensures SomeoneMoves(sys'.coords, sys'.marks[b] + 1, b) {
      SentHelps(sys, parent, id, now, sys', b);
    }
    assert NobodyStranded(sys') by {
      AllHelped(sys');
    }
  }

  lemma AllHelped(sys: Sys)
    requires forall b :: b in sys.marks && IsBehind(sys.marks, b) ==> SomeoneMoves(sys.coords, sys.marks[b] + 1, b)
    ensures NobodyStranded(sys)
  {
  }

  /** What a sent update does to the marks. */
  lemma SentMarks(sys: Sys, parent: string, id: nat, now: int, sys': Sys)
    requires Inv(sys, parent) && Next(sys, parent, Act(id), now, sys') && HasNext(sys.coords[id])
    ensures sys'.marks.Keys == sys.marks.Keys && InStep(sys.marks)
    ensures var u := NextUpdate(sys.coords[id]);
      && IsDue(sys.marks, u.state)
      && forall k :: k in sys.marks ==>
           sys'.marks[k] == sys.marks[k] || (u.id == k && sys'.marks[k] == sys.marks[k] + 1 == Phase(u.state))
  {
    hide StepFacts.Valid, Step, MarkFits, Script, Acts, Lifecycle.EndsAgree, Knows, InStep, AcceptsStageState;
    var op := SentOp(sys, parent, id, now, sys');
    MarksAfter(sys, parent, op, now, sys'.store);
  }

  lemma SentHelps(sys: Sys, parent: string, id: nat, now: int, sys': Sys, b: string)
    requires Inv(sys, parent) && NoneEnded(sys) && Next(sys, parent, Act(id), now, sys') && NobodyStranded(sys)
    requires HasNext(sys.coords[id]) && b in sys'.marks && IsBehind(sys'.marks, b)
    ensures SomeoneMoves(sys'.coords, sys'.marks[b] + 1, b)
  {
    hide Inv, NoneEnded, HasNext, IsBehind, IsMoving, Acts, InStep;
    SentMarks(sys, parent, id, now, sys');
    StaysBehind(sys.marks, sys'.marks, NextUpdate(sys.coords[id]), b);
    if IsBehind(sys.marks, b) {
      var c :| c in sys.coords && IsMoving(sys.coords[c], sys.marks[b] + 1, b);
      if c == id {
        SentStillMoves(sys, parent, id, now, sys', b);
      }
      assert IsMoving(sys'.coords[c], sys.marks[b] + 1, b);
    } else {
      SentNowMoves(sys, parent, id, now, sys', b);
    }
  }

  /** Either the stage was behind before, or the update just sent was the first into its phase. */
  lemma StaysBehind(marks: map<string, nat>, marks': map<string, nat>, u: Update, b: string)
    requires marks'.Keys == marks.Keys && InStep(marks) && IsDue(marks, u.state) && IsBehind(marks', b)
    requires forall id :: id in marks ==>
      marks'[id] == marks[id] || (u.id == id && marks'[id] == marks[id] + 1 == Phase(u.state))
    ensures marks'[b] == marks[b] >= 2
    ensures !IsBehind(marks, b) ==>
      u.id in marks && marks'[u.id] == marks[u.id] + 1 == Phase(u.state) == marks[b] + 1
  {
    var a :| a in marks' && marks'[a] > marks'[b];
  }

  lemma SentCoord(sys: Sys, parent: string, id: nat, now: int, sys': Sys)
    requires Next(sys, parent, Act(id), now, sys')
    requires HasNext(sys.coords[id])
    ensures var c, u := sys.coords[id], NextUpdate(sys.coords[id]);
      && sys'.coords == sys.coords[id := sys'.coords[id]]
      && sys'.coords[id] == if AcceptsStageState(sys.store, u.id, u.state) then c.(sent := c.sent + 1) else Returned
  {
    hide Step, Script, AcceptsStageState;
  }

  /** A coordinator that was on its way to stage `b` still is after one more update, unless it has moved it. */
  lemma SentStillMoves(sys: Sys, parent: string, id: nat, now: int, sys': Sys, b: string)
    requires Inv(sys, parent) && NoneEnded(sys) && Next(sys, parent, Act(id), now, sys')
    requires IsBehind(sys.marks, b) && IsMoving(sys.coords[id], sys.marks[b] + 1, b)
    requires b in sys'.marks && sys'.marks[b] == sys.marks[b]
    ensures IsMoving(sys'.coords[id], sys.marks[b] + 1, b)
  {
    hide StepFacts.Valid, Step, Script, Acts, Lifecycle.EndsAgree, Knows, MarkFits, AcceptsStageState, Phase;
    var c, p := sys.coords[id], sys.marks[b] + 1;
    var u := NextUpdate(c);
    var op := SentOp(sys, parent, id, now, sys');
    MarksAfter(sys, parent, op, now, sys'.store);
    SentCoord(sys, parent, id, now, sys');
    var k :| c.sent <= k < |Script(c.action, c.ids)| && Moves(Script(c.action, c.ids)[k], p, b);
    assert AcceptsStageState(sys.store, u.id, u.state) by {
      BehindMeansAccepted(sys, parent, u, b);
    }
    assert k != c.sent;
    PhasesAreTogether(c.action, c.ids, c.sent, c.sent + 1, k);
  }

  /** While a stage is behind a phase, none is past it, so an update into that phase is taken. */
  lemma BehindMeansAccepted(sys: Sys, parent: string, u: Update, b: string)
    requires Inv(sys, parent) && NoneEnded(sys) && u.id in sys.marks && IsDue(sys.marks, u.state)
    requires b in sys.marks && sys.marks[b] >= 2 && Phase(u.state) == sys.marks[b] + 1
    ensures AcceptsStageState(sys.store, u.id, u.state)
  {
    hide StepFacts.Valid, Lifecycle.EndsAgree, Knows, MarkFits;
    assert u.id in StageIds(sys.store, parent);
    assert sys.marks[u.id] <= Phase(u.state);
    TakenUnlessPast(sys.store.jobs[u.id].cdipState, sys.marks[u.id], u.state);
  }

  /** A coordinator whose update was the first into a phase goes on to send every other stage there. */
  lemma SentNowMoves(sys: Sys, parent: string, id: nat, now: int, sys': Sys, b: string)
    requires Inv(sys, parent) && Next(sys, parent, Act(id), now, sys')
    requires HasNext(sys.coords[id]) && b in sys.marks && b in sys'.marks && sys'.marks[b] == sys.marks[b] >= 2
    requires var u := NextUpdate(sys.coords[id]);
      && Phase(u.state) == sys.marks[b] + 1
      && u.id in sys.marks && u.id in sys'.marks && sys'.marks[u.id] == sys.marks[u.id] + 1 == Phase(u.state)
    ensures IsMoving(sys'.coords[id], sys.marks[b] + 1, b)
  {
    hide StepFacts.Valid, Step, Script, Acts, Lifecycle.EndsAgree, MarkFits, AcceptsStageState, Phase;
    var c, p := sys.coords[id], sys.marks[b] + 1;
    var u := NextUpdate(c);
    SentCoord(sys, parent, id, now, sys');
    MovedMeansAccepted(sys, parent, id, now, sys');
    assert Knows(sys.marks, c);
    var k := ScriptMovesAll(c.action, c.ids, c.sent, b);
    assert k >= c.sent by {
      assert k < c.sent ==> Taken(sys.marks, Script(c.action, c.ids)[k]);
    }
    assert k != c.sent;
    PhasesAreTogether(c.action, c.ids, c.sent, c.sent + 1, k);
  }

  lemma MovedMeansAccepted(sys: Sys, parent: string, id: nat, now: int, sys': Sys)
    requires Inv(sys, parent) && Next(sys, parent, Act(id), now, sys')
    requires HasNext(sys.coords[id])
    requires var u := NextUpdate(sys.coords[id]);
      u.id in sys.marks && u.id in sys'.marks && sys'.marks[u.id] != sys.marks[u.id]
    ensures var u := NextUpdate(sys.coords[id]); AcceptsStageState(sys.store, u.id, u.state)
  {
    hide StepFacts.Valid, Script, Lifecycle.EndsAgree, Knows, InStep;
    var c := sys.coords[id];
    var u := NextUpdate(c);
    if !AcceptsStageState(sys.store, u.id, u.state) {
      assert sys'.store == sys.store;
      StoreUnchanged(sys, parent);
    }
  }

  /** A stage that has ended stays so. */
  lemma EndedStays(sys: Sys, parent: string, e: Event, now: int, sys': Sys)
    requires Inv(sys, parent) && Next(sys, parent, e, now, sys') && NoneEnded(sys')
    ensures NoneEnded(sys)
  {
    hide StepFacts.Valid, Knows, Step, InStep, MarkFits, Lifecycle.EndsAgree, Script;
    forall id | id in sys.marks ensures !HasEnded(sys.store.jobs[id].cdipState) {
      assert id in StageIds(sys.store, parent) && id in sys'.marks;
      if sys'.store != sys.store {
        var op: Op :| Step(sys.store, op, now, sys'.store);
        StageStep(sys.store, op, now, sys'.store, id);
      }
    }
  }

  lemma NextStrandsNobody(sys: Sys, parent: string, e: Event, now: int, sys': Sys)
    requires Inv(sys, parent) && Next(sys, parent, e, now, sys')
    requires NoneEnded(sys) && NobodyStranded(sys)
    ensures NobodyStranded(sys')
  {
    hide StepFacts.Valid, Knows, Step, InStep, MarkFits, Lifecycle.EndsAgree, NobodyStranded, Script, NoneEnded;
    match e
    case Spawn(id, start) =>
      StoreUnchanged(sys, parent);
      SpawnStrandsNobody(sys, parent, id, start, now, sys');
    case Outside(op) => OutsideStrandsNobody(sys, parent, op, now, sys');
    case Act(id) =>
      var c := sys.coords[id];
      if HasNext(c) {
        SendingStrandsNobody(sys, parent, id, now, sys');
      } else {
        CloseKeepsMarks(sys, parent, id, now, sys');
        WaitingStrandsNobody(sys, parent, id, now, sys');
      }
  }

  lemma SpawnStrandsNobody(sys: Sys, parent: string, id: nat, start: Coord, now: int, sys': Sys)
    requires Next(sys, parent, Spawn(id, start), now, sys') && sys'.marks == sys.marks && NobodyStranded(sys)
    ensures NobodyStranded(sys')
  {
    hide IsMoving, IsBehind;
    forall b | b in sys'.marks && IsBehind(sys'.marks, b) ensures SomeoneMoves(sys'.coords, sys'.marks[b] + 1, b) {
      var c :| c in sys.coords && IsMoving(sys.coords[c], sys.marks[b] + 1, b);
      assert c in sys'.coords && sys'.coords[c] == sys.coords[c];
    }
  }

  lemma CloseKeepsMarks(sys: Sys, parent: string, id: nat, now: int, sys': Sys)
    requires Inv(sys, parent) && Next(sys, parent, Act(id), now, sys')
    requires !HasNext(sys.coords[id])
    ensures sys'.marks == sys.marks
  {
    hide StepFacts.Valid, Knows, Step, InStep, MarkFits, Lifecycle.EndsAgree, Script;
    if sys'.store == sys.store {
      StoreUnchanged(sys, parent);
    } else {
      var op := SentOp(sys, parent, id, now, sys');
      MarksAfter(sys, parent, op, now, sys'.store);
    }
  }

  // ----- the theorem -----

  /** In every run, as long as no stage has failed or been aborted: for each stage that is ready or further while
      another is ahead of it, some coordinator is sending that phase's updates and has this stage still to come. */
  lemma {:induction false} NoStageIsStranded(
      run: seq<Sys>, parent: string, events: seq<Event>, nows: seq<int>, i: nat)
    requires IsSysRun(run, parent, events, nows) && i < |run| && NoneEnded(run[i])
    ensures NobodyStranded(run[i])
    decreases i
  {
    hide Inv, Next, Initial, NoneEnded, NobodyStranded;
    if i == 0 {
      StartStrandsNobody(run[0], parent);
    } else {
      RunKeepsInv(run, parent, events, nows, i - 1);
      EndedStays(run[i - 1], parent, events[i - 1], nows[i - 1], run[i]);
      NoStageIsStranded(run, parent, events, nows, i - 1);
      NextStrandsNobody(run[i - 1], parent, events[i - 1], nows[i - 1], run[i]);
    }
  }

  lemma StartStrandsNobody(sys: Sys, parent: string)
    requires Initial(sys, parent)
    ensures NobodyStranded(sys)
  {
  }

  /** So when no coordinator is at work, the stages that have started prefill are all in the same phase. */
  lemma QuietStagesAreTogether(
      run: seq<Sys>, parent: string, events: seq<Event>, nows: seq<int>, i: nat, a: string, b: string)
    requires IsSysRun(run, parent, events, nows) && i < |run| && NoneEnded(run[i])
    requires forall c :: c in run[i].coords ==> !run[i].coords[c].Sending?
    requires a in run[i].marks && b in run[i].marks && run[i].marks[a] >= Phase(Cdip.Prefill)
    ensures run[i].marks[b] == run[i].marks[a]
  {
    hide Next, Initial, NoneEnded, IsSysRun;
    RunKeepsInv(run, parent, events, nows, i);
    NoStageIsStranded(run, parent, events, nows, i);
    NobodyBehind(run[i], b, a);
    NobodyBehind(run[i], a, b);
  }

  lemma NobodyBehind(sys: Sys, b: string, a: string)
    requires NobodyStranded(sys) && (forall c :: c in sys.coords ==> !sys.coords[c].Sending?)
    requires a in sys.marks && b in sys.marks && sys.marks[b] >= 2
    ensures sys.marks[a] <= sys.marks[b]
  {
    assert sys.marks[a] > sys.marks[b] ==> IsBehind(sys.marks, b);
  }
}
