/** A coordinator that runs alone gets on: it takes the stages of a parent to the next phase, and closes the parent
    after the last. So runs that commit exist. */
module Progress {
  import opened Finite
  import opened Jobs
  import opened Scheduler
  import opened Coordinator
  import Barrier
  import Lifecycle
  import Promises
  import Runs
  import StepFacts
  import Cdip

  /** The phases a coordinator moves stages out of; workers report when they are done preparing. */
  predicate HasNextPhase(from: Cdip.StageState) {
    from in {Cdip.Planned, Cdip.Ready, Cdip.Prefill, Cdip.Decode}
  }

  function NextPhase(from: Cdip.StageState): Cdip.StageState {
    if from == Cdip.Planned then Cdip.Preparing
    else if from == Cdip.Preparing then Cdip.Ready
    else if from == Cdip.Ready then Cdip.Prefill
    else if from == Cdip.Prefill then Cdip.Decode
    else Cdip.Completed
  }

  function ActionFor(from: Cdip.StageState): Action {
    if from == Cdip.Planned then Prepare
    else if from == Cdip.Ready then Action.Prefill
    else if from == Cdip.Prefill then Action.Decode
    else Action.Complete
  }

  /** The parent is open and its stages, two or more, are all in one phase. */
  ghost predicate IsAligned(s: Store, parent: string, phase: Cdip.StageState) {
    && ParentOpen(s, parent) && |StageIds(s, parent)| >= 2
    && forall id :: id in StageIds(s, parent) ==> Cdip.Current(s.jobs[id].cdipState) == phase
  }

  /** Nothing but the parent's stages changed. */
  ghost predicate OnlyStages(start: Store, s: Store, parent: string) {
    && s.jobs.Keys == start.jobs.Keys && StageIds(s, parent) == StageIds(start, parent)
    && forall id :: id in start.jobs && id !in StageIds(start, parent) ==> s.jobs[id] == start.jobs[id]
  }

  /** The first `sent` stages are in the next phase, the others as they were. */
  ghost predicate Halfway(
      start: Store, s: Store, parent: string, from: Cdip.StageState, ids: seq<string>, sent: nat) {
    && OnlyStages(start, s, parent) && IsOrder(ids, StageIds(start, parent)) && sent <= |ids|
    && (forall i :: 0 <= i < |ids| ==> ids[i] in start.jobs)
    && (forall i :: 0 <= i < sent ==> s.jobs[ids[i]].cdipState == NextPhase(from))
    && (forall i :: sent <= i < |ids| ==> s.jobs[ids[i]] == start.jobs[ids[i]])
  }

  /** The stages are in the next phase; and after the last phase the parent is closed as succeeded. */
  ghost predicate HasAdvanced(start: Store, s: Store, parent: string, from: Cdip.StageState) {
    && s.jobs.Keys == start.jobs.Keys && StageIds(s, parent) == StageIds(start, parent) && parent in s.jobs
    && (forall id :: id in StageIds(s, parent) ==> s.jobs[id].cdipState == NextPhase(from))
    && (if from == Cdip.Decode then s.jobs[parent].status == Succeeded else ParentOpen(s, parent))
  }

  ghost predicate KnowsMarks(sys: Sys) {
    forall id :: id in sys.marks ==> id in sys.store.jobs
  }

  /** Where coordinator `c`, started on `start`, is after `k` store calls of its own. */
  ghost predicate IsAt(start: Store, parent: string, from: Cdip.StageState, c: nat, k: nat, sys: Sys) {
    && c in sys.coords && KnowsMarks(sys)
    && var n, coord := |StageIds(start, parent)|, sys.coords[c];
       if k == 0 then sys.store == start && coord == Advancing
       else if k == 1 then sys.store == start && coord == Choosing
       else if k == 2 then sys.store == start && coord == Entering(ActionFor(from))
       else if k == 3 then sys.store == start && coord == Snapshotting(ActionFor(from))
       else if k <= n + 4 then IsSending(start, parent, from, k - 4, sys.store, coord)
       else coord == Returned && HasAdvanced(start, sys.store, parent, from)
  }

  ghost predicate IsSending(
      start: Store, parent: string, from: Cdip.StageState, sent: nat, s: Store, coord: Coord) {
    && coord.Sending? && coord.action == ActionFor(from) && coord.sent == sent
    && Halfway(start, s, parent, from, coord.ids, sent)
  }

  /** It gave up after its snapshot, with nothing changed. */
  predicate GaveUp(start: Store, c: nat, sys: Sys) {
    c in sys.coords && sys.coords[c] == Returned && sys.store == start
  }

  // ----- every lone step gets on -----

  lemma ListSize(start: Store, parent: string, ids: seq<string>)
    requires IsOrder(ids, StageIds(start, parent))
    ensures |ids| == |StageIds(start, parent)|
  {
    DistinctSize(ids);
    assert (set id | id in ids) == StageIds(start, parent);
  }

  lemma ScriptOf(from: Cdip.StageState, ids: seq<string>)
    requires HasNextPhase(from)
    ensures Script(ActionFor(from), ids) == Each(ids, NextPhase(from))
    ensures ClosesParent(ActionFor(from)) <==> from == Cdip.Decode
  {
  }

  /** Running alone, the coordinator is one store call further after each, unless it gives up after its snapshot. */
  lemma LoneStepGetsOn(
      start: Store, parent: string, from: Cdip.StageState, c: nat, k: nat, sys: Sys, now: int, sys': Sys)
    requires HasNextPhase(from) && IsAligned(start, parent, from)
    requires k <= |StageIds(start, parent)| + 4 && IsAt(start, parent, from, c, k, sys)
    requires Next(sys, parent, Act(c), now, sys')
    ensures IsAt(start, parent, from, c, k + 1, sys') || (k == 3 && GaveUp(start, c, sys'))
  {
    hide Step, Script;
    var coord, coord' := sys.coords[c], sys'.coords[c];
    if k == 1 {
      ChoosesAction(start, parent, from, coord');
    } else if k == 3 {
      if coord'.Sending? {
        var ids :| IsStageList(start, parent, ids) && coord' == Sending(ActionFor(from), ids, 0);
        assert Halfway(start, start, parent, from, ids, 0);
      }
    } else if k >= 4 {
      ListSize(start, parent, coord.ids);
      ScriptOf(from, coord.ids);
      if k < |coord.ids| + 4 {
        SendGetsOn(start, parent, from, sys.store, coord, now, sys'.store, coord');
      } else {
        EndGetsOn(start, parent, from, sys.store, coord, now, sys'.store, coord');
      }
    }
  }

  lemma ChoosesAction(start: Store, parent: string, from: Cdip.StageState, coord': Coord)
    requires HasNextPhase(from) && IsAligned(start, parent, from)
    requires exists ids :: IsStageList(start, parent, ids) && Chooses(start, ids, coord')
    ensures coord' == Entering(ActionFor(from))
  {
    var ids :| IsStageList(start, parent, ids) && Chooses(start, ids, coord');
    ListSize(start, parent, ids);
    assert ids[0] in ids;
    forall id | id in ids ensures Cdip.Current(start.jobs[id].cdipState) == from {
      assert id in StageIds(start, parent);
    }
  }

  lemma SendGetsOn(
      start: Store, parent: string, from: Cdip.StageState, s: Store, coord: Coord, now: int, s': Store, coord': Coord)
    requires HasNextPhase(from) && IsAligned(start, parent, from) && coord.Sending?
    requires IsSending(start, parent, from, coord.sent, s, coord) && coord.sent < |coord.ids|
    requires Script(coord.action, coord.ids) == Each(coord.ids, NextPhase(from))
    requires Acts(s, parent, coord, now, s', coord')
    ensures IsSending(start, parent, from, coord.sent + 1, s', coord')
  {
    hide Script, Sends, AcceptsStageState, Halfway, IsAligned, Each;
    var id := coord.ids[coord.sent];
    NextIsAccepted(start, parent, from, s, coord.ids, coord.sent);
    var u := Update(id, NextPhase(from));
    assert Script(coord.action, coord.ids)[coord.sent] == u by {
      assert Each(coord.ids, NextPhase(from))[coord.sent] == u;
    }
    assert Acts(s, parent, coord, now, s', coord');
    var detail :| Sends(s, u, detail, now, s');
    SentShape(s, u, detail, now, s');
    SentGetsOn(start, parent, from, s, coord.ids, coord.sent, s');
  }

  /** The next stage in line takes its update. */
  lemma NextIsAccepted(
      start: Store, parent: string, from: Cdip.StageState, s: Store, ids: seq<string>, sent: nat)
    requires HasNextPhase(from) || from == Cdip.Preparing
    requires IsAligned(start, parent, from) && Halfway(start, s, parent, from, ids, sent) && sent < |ids|
    ensures AcceptsStageState(s, ids[sent], NextPhase(from))
  {
    assert ids[sent] in StageIds(start, parent);
  }

  /** A taken update moves that stage and nothing else. */
  lemma SentShape(s: Store, u: Update, detail: string, now: int, s': Store)
    requires Sends(s, u, detail, now, s') && AcceptsStageState(s, u.id, u.state)
    ensures u.id in s.jobs && u.id in s'.jobs && s' == SetJob(s, u.id, s'.jobs[u.id])
    ensures s'.jobs[u.id].cdipState == u.state && s'.jobs[u.id].kind == s.jobs[u.id].kind
    ensures s'.jobs[u.id].cdipParent == s.jobs[u.id].cdipParent
  {
  }

  lemma SentGetsOn(
      start: Store, parent: string, from: Cdip.StageState, s: Store, ids: seq<string>, sent: nat, s': Store)
    requires Halfway(start, s, parent, from, ids, sent) && sent < |ids|
    requires ids[sent] in s.jobs && ids[sent] in s'.jobs && s' == SetJob(s, ids[sent], s'.jobs[ids[sent]])
    requires s'.jobs[ids[sent]].cdipState == NextPhase(from) && s'.jobs[ids[sent]].kind == s.jobs[ids[sent]].kind
    requires s'.jobs[ids[sent]].cdipParent == s.jobs[ids[sent]].cdipParent
    ensures Halfway(start, s', parent, from, ids, sent + 1)
  {
    hide NextPhase, IsStageOf;
    assert ids[sent] in StageIds(start, parent);
    assert StageIds(s', parent) == StageIds(start, parent) by {
      SameOriginSameStages(s, parent, ids[sent], s'.jobs[ids[sent]]);
    }
  }

  lemma SameOriginSameStages(s: Store, parent: string, id: string, job: Job)
    requires id in s.jobs && job.kind == s.jobs[id].kind && job.cdipParent == s.jobs[id].cdipParent
    ensures StageIds(SetJob(s, id, job), parent) == StageIds(s, parent)
  {
  }

  lemma EndGetsOn(
      start: Store, parent: string, from: Cdip.StageState, s: Store, coord: Coord, now: int, s': Store, coord': Coord)
    requires HasNextPhase(from) && IsAligned(start, parent, from) && coord.Sending?
    requires IsSending(start, parent, from, |coord.ids|, s, coord)
    requires Script(coord.action, coord.ids) == Each(coord.ids, NextPhase(from))
    requires ClosesParent(coord.action) <==> from == Cdip.Decode
    requires Acts(s, parent, coord, now, s', coord')
    ensures coord' == Returned && HasAdvanced(start, s', parent, from)
  {
    hide Script, Step, Halfway, IsAligned, NextPhase, HasAdvanced;
    AllSent(start, parent, from, s, coord.ids);
    if from == Cdip.Decode {
      var result :| Step(s, Close(parent, result, ""), now, s');
      CloseAdvances(start, parent, s, result, now, s');
    } else {
      hide ParentOpen, StageIds;
      assert s' == s;
      StayingAdvances(start, parent, from, s);
    }
  }

  /** After the last update the stages are in the next phase, and the parent is as it was. */
  lemma AllSent(start: Store, parent: string, from: Cdip.StageState, s: Store, ids: seq<string>)
    requires IsAligned(start, parent, from) && Halfway(start, s, parent, from, ids, |ids|)
    ensures s.jobs.Keys == start.jobs.Keys && StageIds(s, parent) == StageIds(start, parent) && ParentOpen(s, parent)
    ensures forall id :: id in StageIds(s, parent) ==> s.jobs[id].cdipState == NextPhase(from)
  {
    hide NextPhase;
    assert parent !in StageIds(start, parent);
    forall id | id in StageIds(start, parent) ensures s.jobs[id].cdipState == NextPhase(from) {
      assert id in ids;
    }
  }

  lemma StayingAdvances(start: Store, parent: string, from: Cdip.StageState, s: Store)
    requires s.jobs.Keys == start.jobs.Keys && StageIds(s, parent) == StageIds(start, parent) && ParentOpen(s, parent)
    requires forall id :: id in StageIds(s, parent) ==> s.jobs[id].cdipState == NextPhase(from)
    ensures from != Cdip.Decode ==> HasAdvanced(start, s, parent, from)
  {
    hide NextPhase;
  }

  lemma CloseAdvances(start: Store, parent: string, s: Store, result: string, now: int, s': Store)
    requires s.jobs.Keys == start.jobs.Keys && StageIds(s, parent) == StageIds(start, parent) && ParentOpen(s, parent)
    requires forall id :: id in StageIds(s, parent) ==> s.jobs[id].cdipState == NextPhase(Cdip.Decode)
    requires Step(s, Close(parent, result, ""), now, s')
    ensures HasAdvanced(start, s', parent, Cdip.Decode)
  {
    hide NextPhase;
    var closed := Closed(s.jobs[parent], result, "", now);
    assert closed.status == Succeeded;
    SameOriginSameStages(s, parent, parent, closed);
  }

  // ----- and there always is a step -----

  /** Stage jobs can always be listed: some stage of any set comes first. */
  lemma {:induction false} FirstExists(s: Store, keys: set<string>) returns (first: string)
    requires keys != {} && keys <= s.jobs.Keys
    ensures first in keys && forall id :: id in keys ==> !Before(s.jobs[id], s.jobs[first])
    decreases keys
  {
    first :| first in keys;
    if keys != {first} {
      var other := FirstExists(s, keys - {first});
      if Before(s.jobs[other], s.jobs[first]) {
        first := other;
      }
    }
  }

  lemma {:induction false} SortedExists(s: Store, keys: set<string>) returns (ids: seq<string>)
    requires keys <= s.jobs.Keys
    ensures IsOrder(ids, keys) && forall i :: 0 <= i < |ids| ==> ids[i] in s.jobs
    ensures forall i, k :: 0 <= i < k < |ids| ==> !Before(s.jobs[ids[k]], s.jobs[ids[i]])
    decreases keys
  {
    if keys == {} {
      ids := [];
    } else {
      var first := FirstExists(s, keys);
      var rest := SortedExists(s, keys - {first});
      ids := [first] + rest;
    }
  }

  lemma ListExists(s: Store, parent: string) returns (ids: seq<string>)
    ensures IsStageList(s, parent, ids)
  {
    ids := SortedExists(s, StageIds(s, parent));
  }

  function After(sys: Sys, store: Store, c: nat, coord: Coord): Sys
    requires (forall id :: id in sys.marks ==> id in store.jobs)
  {
    Sys(store, sys.coords[c := coord], Mark(sys.marks, store))
  }

  /** A coordinator that has not finished can always make its next call, and need not give up. */
  lemma LoneStepExists(start: Store, parent: string, from: Cdip.StageState, c: nat, k: nat, sys: Sys, now: int)
    returns (sys': Sys)
    requires HasNextPhase(from) && IsAligned(start, parent, from)
    requires k <= |StageIds(start, parent)| + 4 && IsAt(start, parent, from, c, k, sys)
    ensures Next(sys, parent, Act(c), now, sys') && IsAt(start, parent, from, c, k + 1, sys')
  {
    hide Step, Script, HasAdvanced, Acts, IsAt, IsAligned;
    var store, coord' := CallExists(start, parent, from, c, k, sys, now);
    sys' := After(sys, store, c, coord');
    assert sys'.coords == sys.coords[c := sys'.coords[c]];
    LoneStepGetsOn(start, parent, from, c, k, sys, now, sys');
  }

  /** The call itself. */
  lemma CallExists(start: Store, parent: string, from: Cdip.StageState, c: nat, k: nat, sys: Sys, now: int)
    returns (store: Store, coord': Coord)
    requires HasNextPhase(from) && IsAligned(start, parent, from)
    requires k <= |StageIds(start, parent)| + 4 && IsAt(start, parent, from, c, k, sys)
    ensures c in sys.coords && Acts(sys.store, parent, sys.coords[c], now, store, coord')
    ensures KnowsMarks(sys) && store.jobs.Keys == sys.store.jobs.Keys && (k == 3 ==> coord' != Returned)
  {
    hide Step, Script, HasAdvanced;
    var coord := sys.coords[c];
    var ids := ListExists(start, parent);
    ListSize(start, parent, ids);
    store := start;
    if k == 0 {
      coord' := Choosing;
    } else if k == 1 {
      coord' := Entering(ActionFor(from));
      AlignedChooses(start, parent, from, ids);
    } else if k == 2 {
      coord' := Snapshotting(ActionFor(from));
    } else if k == 3 {
      coord' := Sending(ActionFor(from), ids, 0);
      AlignedPasses(start, parent, from, ids);
    } else {
      ListSize(start, parent, coord.ids);
      ScriptOf(from, coord.ids);
      store, coord' := SendExists(start, parent, from, sys.store, coord, now);
    }
  }

  lemma AlignedChooses(start: Store, parent: string, from: Cdip.StageState, ids: seq<string>)
    requires HasNextPhase(from) && IsAligned(start, parent, from) && IsStageList(start, parent, ids) && |ids| >= 2
    ensures Chooses(start, ids, Entering(ActionFor(from)))
  {
    assert ids[0] in ids;
    forall id | id in ids ensures Cdip.Current(start.jobs[id].cdipState) == from {
      assert id in StageIds(start, parent);
    }
  }

  lemma AlignedPasses(start: Store, parent: string, from: Cdip.StageState, ids: seq<string>)
    requires HasNextPhase(from) && IsAligned(start, parent, from) && IsStageList(start, parent, ids)
    ensures Guard(ActionFor(from), start, ids)
  {
    forall id | id in ids ensures Cdip.Current(start.jobs[id].cdipState) == from {
      assert id in StageIds(start, parent);
    }
  }

  lemma SendExists(start: Store, parent: string, from: Cdip.StageState, s: Store, coord: Coord, now: int)
    returns (s': Store, coord': Coord)
    requires HasNextPhase(from) && IsAligned(start, parent, from) && coord.Sending?
    requires IsSending(start, parent, from, coord.sent, s, coord)
    requires Script(coord.action, coord.ids) == Each(coord.ids, NextPhase(from))
    requires ClosesParent(coord.action) <==> from == Cdip.Decode
    ensures Acts(s, parent, coord, now, s', coord') && s'.jobs.Keys == s.jobs.Keys
  {
    hide Script, Halfway, IsAligned, AcceptsStageState, Each;
    if coord.sent < |coord.ids| {
      var id := coord.ids[coord.sent];
      NextIsAccepted(start, parent, from, s, coord.ids, coord.sent);
      assert Script(coord.action, coord.ids)[coord.sent] == Update(id, NextPhase(from)) by {
        assert Each(coord.ids, NextPhase(from))[coord.sent] == Update(id, NextPhase(from));
      }
      s' := MayMove(s, id, NextPhase(from), now);
      coord' := coord.(sent := coord.sent + 1);
    } else {
      coord' := Returned;
      s' := s;
      if from == Cdip.Decode {
        assert ParentOpen(s, parent) by {
          SendingEnds(start, parent, from, s, coord);
        }
        s' := MayClose(s, parent, now);
      }
    }
  }

  lemma SendingEnds(start: Store, parent: string, from: Cdip.StageState, s: Store, coord: Coord)
    requires IsAligned(start, parent, from) && coord.Sending? && coord.sent >= |coord.ids|
    requires IsSending(start, parent, from, coord.sent, s, coord)
    ensures ParentOpen(s, parent)
  {
    AllSent(start, parent, from, s, coord.ids);
  }

  lemma MayMove(s: Store, id: string, next: Cdip.StageState, now: int) returns (s': Store)
    requires AcceptsStageState(s, id, next)
    ensures Sends(s, Update(id, next), "", now, s') && s'.jobs.Keys == s.jobs.Keys
  {
    s' := SetJob(s, id, StageMoved(s.jobs[id], next, "", now));
  }

  lemma MayClose(s: Store, parent: string, now: int) returns (s': Store)
    requires ParentOpen(s, parent)
    ensures Step(s, Close(parent, "", ""), now, s') && s'.jobs.Keys == s.jobs.Keys
  {
    s' := SetJob(s, parent, Closed(s.jobs[parent], "", "", now));
  }

  // ----- runs -----

  /** Consecutive states of the system. */
  ghost predicate IsPath(run: seq<Sys>, parent: string, events: seq<Event>, nows: seq<int>) {
    && |run| == |events| + 1 == |nows| + 1
    && forall i :: 0 <= i < |events| ==> Next(run[i], parent, events[i], nows[i], run[i + 1])
  }

  lemma PathJoins(
      run: seq<Sys>, parent: string, events: seq<Event>, nows: seq<int>,
      more: seq<Sys>, events': seq<Event>, nows': seq<int>)
    requires IsPath(run, parent, events, nows) && IsPath(more, parent, events', nows') && Last(run) == more[0]
    ensures IsPath(run + more[1..], parent, events + events', nows + nows')
    ensures Last(run + more[1..]) == Last(more) && (run + more[1..])[0] == run[0]
  {
    hide Next;
    var all, es, ns := run + more[1..], events + events', nows + nows';
    forall i | 0 <= i < |es| ensures Next(all[i], parent, es[i], ns[i], all[i + 1]) {
      if i >= |events| {
        var j := i - |events|;
        assert Next(more[j], parent, events'[j], nows'[j], more[j + 1]);
        assert all[i] == more[j] && all[i + 1] == more[j + 1];
      } else {
        assert Next(run[i], parent, events[i], nows[i], run[i + 1]);
      }
    }
  }

  /** Only coordinator `c` acts. */
  predicate IsLone(events: seq<Event>, c: nat) {
    forall i :: 0 <= i < |events| ==> events[i] == Act(c)
  }

  /** Universal: whatever a lone coordinator's calls do, after as many as it makes the stages have advanced, or it gave
      up after its snapshot and nothing changed. */
  lemma {:induction false} LoneCoordinatorAdvances(
      run: seq<Sys>, parent: string, events: seq<Event>, nows: seq<int>, from: Cdip.StageState, c: nat, k: nat)
    requires IsPath(run, parent, events, nows) && IsLone(events, c) && k < |run|
    requires HasNextPhase(from) && IsAligned(run[0].store, parent, from)
    requires IsAt(run[0].store, parent, from, c, 0, run[0]) && k <= |StageIds(run[0].store, parent)| + 5
    ensures IsAt(run[0].store, parent, from, c, k, run[k]) || (k >= 4 && GaveUp(run[0].store, c, run[k]))
    decreases k
  {
    hide Next, IsAt, IsAligned, GaveUp, HasNextPhase;
    if k > 0 {
      LoneCoordinatorAdvances(run, parent, events, nows, from, c, k - 1);
      assert Next(run[k - 1], parent, events[k - 1], nows[k - 1], run[k]);
      if IsAt(run[0].store, parent, from, c, k - 1, run[k - 1]) {
        LoneStepGetsOn(run[0].store, parent, from, c, k - 1, run[k - 1], nows[k - 1], run[k]);
      } else {
        ReturnedStays(run[0].store, parent, c, run[k - 1], nows[k - 1], run[k]);
      }
    }
  }

  lemma ReturnedStays(start: Store, parent: string, c: nat, sys: Sys, now: int, sys': Sys)
    requires GaveUp(start, c, sys) && Next(sys, parent, Act(c), now, sys')
    ensures GaveUp(start, c, sys')
  {
    hide Step, Script;
  }

  /** Existence: from there the coordinator can go all the way. */
  lemma {:induction false} AdvancePathExists(
      start: Store, parent: string, from: Cdip.StageState, c: nat, k: nat, sys: Sys, now: int)
    returns (run: seq<Sys>, events: seq<Event>, nows: seq<int>)
    requires HasNextPhase(from) && IsAligned(start, parent, from)
    requires k <= |StageIds(start, parent)| + 5 && IsAt(start, parent, from, c, k, sys)
    ensures IsPath(run, parent, events, nows) && run[0] == sys && IsLone(events, c)
    ensures forall i :: 0 <= i < |nows| ==> nows[i] == now
    ensures IsAt(start, parent, from, c, |StageIds(start, parent)| + 5, Last(run))
    decreases |StageIds(start, parent)| + 5 - k
  {
    hide Next, IsAt, IsAligned, HasNextPhase;
    if k == |StageIds(start, parent)| + 5 {
      run, events, nows := [sys], [], [];
    } else {
      var next := LoneStepExists(start, parent, from, c, k, sys, now);
      run, events, nows := AdvancePathExists(start, parent, from, c, k + 1, next, now);
      assert IsPath([sys, next], parent, [Act(c)], [now]);
      PathJoins([sys, next], parent, [Act(c)], [now], run, events, nows);
      run, events, nows := [sys, next] + run[1..], [Act(c)] + events, [now] + nows;
    }
  }

  // ----- a run that commits -----

  lemma {:induction false} FreshExists(taken: set<nat>) returns (c: nat)
    ensures forall x :: x in taken ==> x < c
    decreases taken
  {
    if taken == {} {
      c := 0;
    } else {
      var x :| x in taken;
      c := FreshExists(taken - {x});
      assert forall y :: y in taken ==> y in taken - {x} || y == x;
      if c <= x {
        c := x + 1;
      }
    }
  }

  /** A new coordinator, running alone from an aligned state, advances the stages. */
  lemma AdvanceExists(sys: Sys, parent: string, from: Cdip.StageState, now: int)
    returns (run: seq<Sys>, events: seq<Event>, nows: seq<int>)
    requires HasNextPhase(from) && IsAligned(sys.store, parent, from) && KnowsMarks(sys)
    ensures IsPath(run, parent, events, nows) && run[0] == sys
    ensures HasAdvanced(sys.store, Last(run).store, parent, from) && KnowsMarks(Last(run))
  {
    hide IsAligned, HasAdvanced, HasNextPhase;
    var c := FreshExists(sys.coords.Keys);
    var spawned := After(sys, sys.store, c, Advancing);
    assert Next(sys, parent, Spawn(c, Advancing), now, spawned);
    run, events, nows := AdvancePathExists(sys.store, parent, from, c, 0, spawned, now);
    assert IsPath([sys, spawned], parent, [Spawn(c, Advancing)], [now]);
    PathJoins([sys, spawned], parent, [Spawn(c, Advancing)], [now], run, events, nows);
    run, events, nows := [sys, spawned] + run[1..], [Spawn(c, Advancing)] + events, [now] + nows;
  }

  lemma AdvancedIsAligned(start: Store, s: Store, parent: string, from: Cdip.StageState)
    requires IsAligned(start, parent, from) && HasAdvanced(start, s, parent, from)
    requires from in {Cdip.Planned, Cdip.Preparing, Cdip.Ready, Cdip.Prefill}
    ensures IsAligned(s, parent, NextPhase(from))
  {
  }

  /** The workers report that they are ready, one after the other. */
  lemma {:induction false} ReportsExist(
      start: Store, parent: string, ids: seq<string>, sent: nat, sys: Sys, now: int)
    returns (run: seq<Sys>, events: seq<Event>, nows: seq<int>)
    requires IsAligned(start, parent, Cdip.Preparing) && KnowsMarks(sys)
    requires Halfway(start, sys.store, parent, Cdip.Preparing, ids, sent)
    ensures IsPath(run, parent, events, nows) && run[0] == sys
    ensures Halfway(start, Last(run).store, parent, Cdip.Preparing, ids, |ids|) && KnowsMarks(Last(run))
    decreases |ids| - sent
  {
    hide IsAligned, Halfway, Step, AcceptsStageState;
    assert sent <= |ids| by {
      HalfwayIsWithin(start, sys.store, parent, ids, sent);
    }
    if sent == |ids| {
      run, events, nows := [sys], [], [];
    } else {
      var next, event := ReportExists(start, parent, ids, sent, sys, now);
      run, events, nows := ReportsExist(start, parent, ids, sent + 1, next, now);
      assert IsPath([sys, next], parent, [event], [now]);
      PathJoins([sys, next], parent, [event], [now], run, events, nows);
      run, events, nows := [sys, next] + run[1..], [event] + events, [now] + nows;
    }
  }

  lemma HalfwayIsWithin(start: Store, s: Store, parent: string, ids: seq<string>, sent: nat)
    requires Halfway(start, s, parent, Cdip.Preparing, ids, sent)
    ensures sent <= |ids|
  {
  }

  lemma ReportExists(start: Store, parent: string, ids: seq<string>, sent: nat, sys: Sys, now: int)
    returns (next: Sys, event: Event)
    requires IsAligned(start, parent, Cdip.Preparing) && KnowsMarks(sys) && sent < |ids|
    requires Halfway(start, sys.store, parent, Cdip.Preparing, ids, sent)
    ensures Next(sys, parent, event, now, next) && KnowsMarks(next)
    ensures Halfway(start, next.store, parent, Cdip.Preparing, ids, sent + 1)
  {
    hide IsAligned, Halfway, Step, AcceptsStageState;
    NextIsAccepted(start, parent, Cdip.Preparing, sys.store, ids, sent);
    var u := Update(ids[sent], Cdip.Ready);
    var s' := MayMove(sys.store, u.id, u.state, now);
    SentShape(sys.store, u, "", now, s');
    SentGetsOn(start, parent, Cdip.Preparing, sys.store, ids, sent, s');
    event := Outside(MoveStage(u.id, u.state, ""));
    next := Sys(s', sys.coords, Mark(sys.marks, s'));
  }

  lemma ReportedIsAligned(start: Store, s: Store, parent: string, ids: seq<string>)
    requires IsAligned(start, parent, Cdip.Preparing) && Halfway(start, s, parent, Cdip.Preparing, ids, |ids|)
    ensures IsAligned(s, parent, Cdip.Ready)
  {
    AllSent(start, parent, Cdip.Preparing, s, ids);
    StayingAdvances(start, parent, Cdip.Preparing, s);
    AdvancedIsAligned(start, s, parent, Cdip.Preparing);
  }

  /** From planned stages to the ready ones. */
  lemma ReadyExists(sys: Sys, parent: string, now: int)
    returns (run: seq<Sys>, events: seq<Event>, nows: seq<int>)
    requires IsAligned(sys.store, parent, Cdip.Planned) && KnowsMarks(sys)
    ensures IsPath(run, parent, events, nows) && run[0] == sys
    ensures IsAligned(Last(run).store, parent, Cdip.Ready) && KnowsMarks(Last(run))
    ensures StageIds(Last(run).store, parent) == StageIds(sys.store, parent)
  {
    hide IsAligned, Halfway, Next;
    run, events, nows := AdvanceExists(sys, parent, Cdip.Planned, now);
    var mid := Last(run);
    AdvancedIsAligned(sys.store, mid.store, parent, Cdip.Planned);
    var ids := ListExists(mid.store, parent);
    assert Halfway(mid.store, mid.store, parent, Cdip.Preparing, ids, 0) by {
      StartsHalfway(mid.store, parent, ids);
    }
    var more, events', nows' := ReportsExist(mid.store, parent, ids, 0, mid, now);
    ReportedIsAligned(mid.store, Last(more).store, parent, ids);
    HalfwayKeepsStages(mid.store, Last(more).store, parent, ids);
    PathJoins(run, parent, events, nows, more, events', nows');
    run, events, nows := run + more[1..], events + events', nows + nows';
  }

  lemma StartsHalfway(s: Store, parent: string, ids: seq<string>)
    requires IsStageList(s, parent, ids)
    ensures Halfway(s, s, parent, Cdip.Preparing, ids, 0)
  {
  }

  lemma HalfwayKeepsStages(start: Store, s: Store, parent: string, ids: seq<string>)
    requires Halfway(start, s, parent, Cdip.Preparing, ids, |ids|)
    ensures StageIds(s, parent) == StageIds(start, parent)
  {
  }

  /** From one phase to the one after the next. */
  lemma AdvanceOn(
      run: seq<Sys>, parent: string, events: seq<Event>, nows: seq<int>, from: Cdip.StageState, now: int)
    returns (run': seq<Sys>, events': seq<Event>, nows': seq<int>)
    requires IsPath(run, parent, events, nows) && HasNextPhase(from)
    requires IsAligned(Last(run).store, parent, from) && KnowsMarks(Last(run))
    ensures IsPath(run', parent, events', nows') && run'[0] == run[0]
    ensures HasAdvanced(Last(run).store, Last(run').store, parent, from) && KnowsMarks(Last(run'))
    ensures from in {Cdip.Ready, Cdip.Prefill} ==> IsAligned(Last(run').store, parent, NextPhase(from))
  {
    hide IsAligned, HasAdvanced, HasNextPhase, Next;
    var more, es, ns := AdvanceExists(Last(run), parent, from, now);
    PathJoins(run, parent, events, nows, more, es, ns);
    run', events', nows' := run + more[1..], events + es, nows + ns;
    if from in {Cdip.Ready, Cdip.Prefill} {
      AdvancedIsAligned(Last(run).store, Last(run').store, parent, from);
    }
  }

  /** From every start with an open parent and two or more planned stages there is a run that completes every stage and
      closes the parent as succeeded. */
  lemma CommittingRunExists(sys: Sys, parent: string, now: int)
    returns (run: seq<Sys>, events: seq<Event>, nows: seq<int>)
    requires Initial(sys, parent) && ParentOpen(sys.store, parent) && |StageIds(sys.store, parent)| >= 2
    ensures IsSysRun(run, parent, events, nows) && run[0] == sys
    ensures var end := Last(run).store;
      && StageIds(end, parent) == StageIds(sys.store, parent)
      && (forall id :: id in StageIds(end, parent) ==> end.jobs[id].cdipState == Cdip.Completed)
      && parent in end.jobs && end.jobs[parent].status == Succeeded
  {
    hide Next, StageIds, StepFacts.Valid, ParentOpen;
    assert KnowsMarks(sys) && IsAligned(sys.store, parent, Cdip.Planned) by {
      StartIsAligned(sys, parent);
    }
    hide IsAligned, KnowsMarks, Initial;
    run, events, nows := ReadyExists(sys, parent, now);
    run, events, nows := AdvanceOn(run, parent, events, nows, Cdip.Ready, now);
    run, events, nows := AdvanceOn(run, parent, events, nows, Cdip.Prefill, now);
    run, events, nows := AdvanceOn(run, parent, events, nows, Cdip.Decode, now);
  }

  lemma StartIsAligned(sys: Sys, parent: string)
    requires Initial(sys, parent) && ParentOpen(sys.store, parent) && |StageIds(sys.store, parent)| >= 2
    ensures KnowsMarks(sys) && IsAligned(sys.store, parent, Cdip.Planned)
  {
  }

  // ----- the first and the last call -----

  /** The coordinator is not in the middle of its updates. */
  predicate IsIdle(coord: Coord) {
    !coord.Sending?
  }

  /** A parent with fewer than two stages is left alone: in no run does a coordinator change anything. */
  lemma FewStagesAreLeft(run: seq<Sys>, parent: string, events: seq<Event>, nows: seq<int>, i: nat)
    requires IsSysRun(run, parent, events, nows) && i < |events| && events[i].Act?
    requires |StageIds(run[0].store, parent)| < 2
    ensures run[i + 1].store == run[i].store
  {
    hide Initial;
    StaysIdle(run, parent, events, nows, i);
    assert Next(run[i], parent, events[i], nows[i], run[i + 1]);
  }

  lemma {:induction false} StaysIdle(run: seq<Sys>, parent: string, events: seq<Event>, nows: seq<int>, i: nat)
    requires IsSysRun(run, parent, events, nows) && i < |run| && |StageIds(run[0].store, parent)| < 2
    ensures forall c :: c in run[i].coords ==> IsIdle(run[i].coords[c])
    ensures |StageIds(run[i].store, parent)| < 2
    decreases i
  {
    hide Next, StageIds;
    if i > 0 {
      StaysIdle(run, parent, events, nows, i - 1);
      assert Next(run[i - 1], parent, events[i - 1], nows[i - 1], run[i]);
      Barrier.RunKeepsInv(run, parent, events, nows, i - 1);
      Barrier.NextKeepsInv(run[i - 1], parent, events[i - 1], nows[i - 1], run[i]);
      NextStaysIdle(run[i - 1], parent, events[i - 1], nows[i - 1], run[i]);
    }
  }

  lemma NextStaysIdle(sys: Sys, parent: string, e: Event, now: int, sys': Sys)
    requires Next(sys, parent, e, now, sys') && |StageIds(sys.store, parent)| < 2
    requires forall c :: c in sys.coords ==> IsIdle(sys.coords[c])
    ensures forall c :: c in sys'.coords ==> IsIdle(sys'.coords[c])
  {
    hide StageIds, Step, Guard;
    if e.Act? && sys'.coords[e.id].Sending? {
      var ids :| IsStageList(sys.store, parent, ids) && sys'.coords[e.id].ids == ids && |ids| >= 2;
      ListSize(sys.store, parent, ids);
    }
  }

  /** The coordinator has yet to read the parent before it takes the snapshot of an action, or is done. */
  predicate IsYetToRead(coord: Coord) {
    coord.Advancing? || coord.Choosing? || coord.Entering? || coord.Returned?
  }

  predicate HasEnded(s: Store, parent: string) {
    parent in s.jobs && s.jobs[parent].status in {Succeeded, Jobs.Failed, Canceled}
  }

  /** A parent that has ended is left alone: from then on no coordinator changes anything, but for those that had read
      it as open before. */
  lemma EndedParentIsLeft(run: seq<Sys>, parent: string, events: seq<Event>, nows: seq<int>, i: nat, k: nat)
    requires IsSysRun(run, parent, events, nows) && i <= k < |events| && events[k].Act?
    requires HasEnded(run[i].store, parent)
    requires forall c :: c in run[i].coords ==> IsYetToRead(run[i].coords[c])
    ensures run[k + 1].store == run[k].store
  {
    hide Initial;
    StaysAway(run, parent, events, nows, i, k);
    assert Next(run[k], parent, events[k], nows[k], run[k + 1]);
  }

  lemma {:induction false} StaysAway(
      run: seq<Sys>, parent: string, events: seq<Event>, nows: seq<int>, i: nat, k: nat)
    requires IsSysRun(run, parent, events, nows) && i <= k < |run| && HasEnded(run[i].store, parent)
    requires forall c :: c in run[i].coords ==> IsYetToRead(run[i].coords[c])
    ensures HasEnded(run[k].store, parent)
    ensures forall c :: c in run[k].coords ==> IsYetToRead(run[k].coords[c])
    decreases k - i
  {
    hide Next, HasEnded, Initial;
    if i < k {
      StaysAway(run, parent, events, nows, i, k - 1);
      assert Next(run[k - 1], parent, events[k - 1], nows[k - 1], run[k]);
      Barrier.RunKeepsInv(run, parent, events, nows, k - 1);
      NextStaysAway(run[k - 1], parent, events[k - 1], nows[k - 1], run[k]);
    }
  }

  lemma NextStaysAway(sys: Sys, parent: string, e: Event, now: int, sys': Sys)
    requires StepFacts.Valid(sys.store) && Next(sys, parent, e, now, sys') && HasEnded(sys.store, parent)
    requires forall c :: c in sys.coords ==> IsYetToRead(sys.coords[c])
    ensures HasEnded(sys'.store, parent)
    ensures forall c :: c in sys'.coords ==> IsYetToRead(sys'.coords[c])
  {
    hide StepFacts.Valid, Step, IsStageList, StageIds;
    if e.Outside? {
      EndedStays(sys.store, parent, e.op, now, sys'.store);
    }
  }

  lemma EndedStays(s: Store, parent: string, op: Op, now: int, s': Store)
    requires StepFacts.Valid(s) && Step(s, op, now, s') && HasEnded(s, parent)
    ensures HasEnded(s', parent)
  {
    hide Step, Lifecycle.Makes;
    Runs.StepKeeps(s, op, now, s');
    var m :| Lifecycle.Makes(m, s.jobs[parent], s'.jobs[parent]);
    Lifecycle.MoveFacts(m, s.jobs[parent], s'.jobs[parent]);
  }

  /** After its last update a coordinator makes one more call. If that update said completed, the call closes the parent
      as succeeded, whatever became of it meanwhile; if not, it changes nothing. */
  lemma LastCallExactlyCloses(sys: Sys, parent: string, c: nat, now: int, sys': Sys)
    requires Next(sys, parent, Act(c), now, sys') && sys.coords[c].Sending? && sys.coords[c].ids != []
    requires sys.coords[c].sent == |Script(sys.coords[c].action, sys.coords[c].ids)|
    requires parent in sys.store.jobs && sys.store.jobs[parent].kind == JOB_DISTRIBUTED
    ensures sys'.coords[c] == Returned
    ensures if Last(Script(sys.coords[c].action, sys.coords[c].ids)).state == Cdip.Completed
            then parent in sys'.store.jobs && sys'.store.jobs[parent].status == Succeeded
              && sys'.store == SetJob(sys.store, parent, sys'.store.jobs[parent])
            else sys'.store == sys.store
  {
    hide Script, Step;
    var coord := sys.coords[c];
    LastUpdate(coord.action, coord.ids);
    if ClosesParent(coord.action) {
      var result :| Step(sys.store, Close(parent, result, ""), now, sys'.store);
      Promises.CloseIsRecorded(sys.store, parent, result, "", now, sys'.store);
    }
  }

  lemma LastUpdate(action: Action, ids: seq<string>)
    requires ids != []
    ensures Script(action, ids) != []
    ensures ClosesParent(action) <==> Last(Script(action, ids)).state == Cdip.Completed
  {
  }
}
