/** Whole runs of the manager: any sequence of operations, in any order, at non-decreasing times. */
module History {
  import opened Jobs
  import opened Scheduler
  import opened Lifecycle
  import opened LoopFacts
  import opened StepFacts
  import opened Placement
  import opened Runs
  import Cdip

  /** `states[i + 1]` is what operation `ops[i]` at time `nows[i]` made of `states[i]`. */
  ghost predicate IsRun(states: seq<Store>, ops: seq<Op>, nows: seq<int>) {
    && |states| == |ops| + 1 && |nows| == |ops|
    && (forall i :: 0 <= i < |ops| ==> Step(states[i], ops[i], nows[i], states[i + 1]))
    && (forall i, k :: 0 <= i <= k < |ops| ==> nows[i] <= nows[k])
    && Valid(states[0])
  }

  lemma RunInit(states: seq<Store>, ops: seq<Op>, nows: seq<int>)
    requires IsRun(states, ops, nows) && ops != []
    ensures IsRun(Init(states), Init(ops), Init(nows))
    ensures Step(Last(Init(states)), Last(ops), Last(nows), Last(states))
  {
    hide Step, Valid;
    forall i | 0 <= i < |Init(ops)| ensures Step(Init(states)[i], Init(ops)[i], Init(nows)[i], Init(states)[i + 1]) {
      assert Step(states[i], ops[i], nows[i], states[i + 1]);
    }
  }

  /** Every state of a run is valid. */
  lemma {:induction false} RunKeepsValid(states: seq<Store>, ops: seq<Op>, nows: seq<int>, i: nat)
    requires IsRun(states, ops, nows) && i < |states|
    ensures Valid(states[i])
    ensures i < |ops| ==> JobsMove(states[i], states[i + 1])
    decreases i
  {
    hide Step, Valid;
    if i > 0 {
      RunKeepsValid(states, ops, nows, i - 1);
      StepKeeps(states[i - 1], ops[i - 1], nows[i - 1], states[i]);
    }
    if i < |ops| {
      StepKeeps(states[i], ops[i], nows[i], states[i + 1]);
    }
  }

  // ----- bounded retries -----

  /** Job `id` was handed to a worker by this operation, at creation or later. */
  predicate HandedOut(s: Store, s': Store, id: string) {
    && id in s'.jobs && s'.jobs[id].status == Scheduled
    && (id !in s.jobs || Dispatched(s.jobs[id], s'.jobs[id]))
  }

  /** The status or the worker of a job that was not yet terminal changed. */
  predicate ChangedLive(s: Store, s': Store, id: string) {
    id in s.jobs && id in s'.jobs && !s.jobs[id].IsTerminal() && Changed(s.jobs[id], s'.jobs[id])
  }

  function Dispatches(states: seq<Store>, id: string): nat {
    if |states| <= 1 then 0
    else Dispatches(Init(states), id) + One(HandedOut(Last(Init(states)), Last(states), id))
  }

  function LiveChanges(states: seq<Store>, id: string): nat {
    if |states| <= 1 then 0
    else LiveChanges(Init(states), id) + One(ChangedLive(Last(Init(states)), Last(states), id))
  }

  /** A job's attempts are exactly the times it was handed to a worker, never more than it is allowed;
      and it changes at most 3 * maxAttempts + 1 times before it is terminal. */
  lemma {:induction false} RetriesAreBounded(states: seq<Store>, ops: seq<Op>, nows: seq<int>, id: string)
    requires IsRun(states, ops, nows) && id !in states[0].jobs
    ensures id !in Last(states).jobs ==> Dispatches(states, id) == 0 && LiveChanges(states, id) == 0
    ensures id in Last(states).jobs ==>
      var j := Last(states).jobs[id];
      && Dispatches(states, id) == j.attempts <= j.maxAttempts
      && LiveChanges(states, id) + Fuel(j) <= 3 * j.maxAttempts + 1
      && LiveChanges(states, id) <= 3 * j.maxAttempts + 1
    decreases |ops|
  {
    hide Step, Valid, Makes, Moves;
    if ops != [] {
      RunInit(states, ops, nows);
      RetriesAreBounded(Init(states), Init(ops), Init(nows), id);
      RunKeepsValid(states, ops, nows, |ops| - 1);
      var s, s' := Last(Init(states)), Last(states);
      if id in s.jobs {
        OneMoveCounts(s.jobs[id], s'.jobs[id]);
      }
      if id in s'.jobs {
        RunKeepsValid(states, ops, nows, |ops|);
        ValidIsSound(s', id);
      }
      if id in s.jobs {
        ValidIsSound(s, id);
      }
    }
  }

  lemma ValidIsSound(s: Store, id: string)
    requires Valid(s) && id in s.jobs
    ensures Sound(s.jobs[id])
  {
  }

  lemma OneMoveCounts(j: Job, j': Job)
    requires Moves(j, j')
    ensures Sound(j) ==>
      && j'.maxAttempts == j.maxAttempts
      && j'.attempts == j.attempts + One(Dispatched(j, j'))
      && Fuel(j') + One(!j.IsTerminal() && Changed(j, j')) <= Fuel(j)
  {
    var m :| Makes(m, j, j');
    if Sound(j) {
      MoveFacts(m, j, j');
    }
  }

  /** No operation revives a terminal job. */
  lemma {:induction false} TerminalIsForever(states: seq<Store>, ops: seq<Op>, nows: seq<int>, id: string, i: nat,
    k: nat)
    requires IsRun(states, ops, nows) && i <= k < |states|
    requires id in states[i].jobs && states[i].jobs[id].IsTerminal()
    ensures id in states[k].jobs && states[k].jobs[id].IsTerminal()
    ensures states[k].jobs[id].attempts == states[i].jobs[id].attempts
    decreases k - i
  {
    hide Step, Valid, Makes;
    if i < k {
      TerminalIsForever(states, ops, nows, id, i, k - 1);
      RunKeepsValid(states, ops, nows, k - 1);
      ValidIsSound(states[k - 1], id);
      var m :| Makes(m, states[k - 1].jobs[id], states[k].jobs[id]);
      MoveFacts(m, states[k - 1].jobs[id], states[k].jobs[id]);
    }
  }

  // ----- pinned stage jobs -----

  predicate FollowsProtocol(j: Job, j': Job) {
    j'.cdipState == j.cdipState || Cdip.CanTransition(Cdip.Current(j.cdipState), j'.cdipState)
  }

  /** A stage job of the distributed planner stays on its worker for its whole life, its CDIP state moves
      only along the protocol's transitions, and a CDIP end state always comes with its job status. */
  lemma {:induction false} PinnedForever(
    states: seq<Store>, ops: seq<Op>, nows: seq<int>, id: string, w: string, i: nat, k: nat)
    requires IsRun(states, ops, nows) && i <= k < |states|
    requires id in states[i].jobs && PinnedTo(states[i].jobs[id], w) && EndsAgree(states[i].jobs[id])
    ensures id in states[k].jobs && PinnedTo(states[k].jobs[id], w) && EndsAgree(states[k].jobs[id])
    ensures k > i ==> id in states[k - 1].jobs && FollowsProtocol(states[k - 1].jobs[id], states[k].jobs[id])
    decreases k - i
  {
    hide Step, Valid, Makes, PinnedTo, EndsAgree;
    if i < k {
      PinnedForever(states, ops, nows, id, w, i, k - 1);
      RunKeepsValid(states, ops, nows, k - 1);
      ValidIsSound(states[k - 1], id);
      var m :| Makes(m, states[k - 1].jobs[id], states[k].jobs[id]);
      PinnedMove(m, states[k - 1].jobs[id], states[k].jobs[id], w);
    }
  }

  // ----- slots -----

  /** The most slots worker `w` had at any time of the run. */
  function PeakSlots(states: seq<Store>, w: string): int
    requires states != []
  {
    if |states| == 1 then SlotsOf(states[0], w) else Max(PeakSlots(Init(states), w), SlotsOf(Last(states), w))
  }

  /** As long as no stage is started on a full worker, no worker ever carries more than it started with or than the
      most slots it had. */
  lemma {:induction false} RunWithinSlots(states: seq<Store>, ops: seq<Op>, nows: seq<int>, w: string)
    requires IsRun(states, ops, nows)
    requires forall i :: 0 <= i < |ops| ==> !Overfills(states[i], ops[i])
    ensures Load(Last(states), w) <= Max(Load(states[0], w), PeakSlots(states, w))
    decreases |ops|
  {
    hide Step, Valid, Load, SlotsOf, Overfills;
    if ops != [] {
      RunInit(states, ops, nows);
      assert !Overfills(Last(Init(states)), Last(ops));
      assert forall i :: 0 <= i < |Init(ops)| ==> Init(states)[i] == states[i] && Init(ops)[i] == ops[i];
      RunWithinSlots(Init(states), Init(ops), Init(nows), w);
      RunKeepsValid(states, ops, nows, |ops| - 1);
      StepKeeps(Last(Init(states)), Last(ops), Last(nows), Last(states));
    }
  }

  /** As long as no stage is started on a worker that is not online, every active job sits on an online worker. */
  lemma {:induction false} NobodyStrays(states: seq<Store>, ops: seq<Op>, nows: seq<int>, i: nat)
    requires IsRun(states, ops, nows) && i < |states|
    requires forall id :: id in states[0].jobs ==> !Strays(states[0], states[0].jobs[id])
    requires forall n :: 0 <= n < i ==> !Misplaces(states[n], ops[n])
    ensures forall id :: id in states[i].jobs ==> !Strays(states[i], states[i].jobs[id])
    decreases i
  {
    hide Step, Valid, Strays, Misplaces;
    if i > 0 {
      NobodyStrays(states, ops, nows, i - 1);
      RunKeepsValid(states, ops, nows, i - 1);
      StepStrays(states[i - 1], ops[i - 1], nows[i - 1], states[i]);
    }
  }

  // ----- work conservation -----

  /** Once some operation has offered the queue to the workers, and as long as no later one disturbs it, no
      job ever waits for a worker that could take it. */
  lemma {:induction false} WorkStaysConserved(states: seq<Store>, ops: seq<Op>, nows: seq<int>, i: nat, k: nat)
    requires IsRun(states, ops, nows) && i < k < |states|
    requires Settles(states[i], ops[i])
    requires forall n :: i < n < k ==> !Disturbs(states[n], ops[n], nows[n])
    ensures WorkConserved(states[k], nows[k - 1])
    decreases k - i
  {
    hide Step, Valid, WorkConserved, Disturbs, Settles;
    RunKeepsValid(states, ops, nows, k - 1);
    assert Step(states[k - 1], ops[k - 1], nows[k - 1], states[k]);
    if i + 1 == k {
      SettlingConservesWork(states[i], ops[i], nows[i], states[k]);
    } else {
      WorkStaysConserved(states, ops, nows, i, k - 1);
      TimePasses(states[k - 1], nows[k - 2], nows[k - 1]);
      StepConservesWork(states[k - 1], ops[k - 1], nows[k - 1], states[k]);
    }
  }
}
