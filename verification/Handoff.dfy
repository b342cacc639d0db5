/** The steps from plan to prepared workers: the shard manifest, the stage jobs, their listing, the prepare messages and
    the worker's own check. Each step validates what it is given. */
module Handoff {
  import opened Finite
  import opened Options
  import opened Text
  import opened Jobs
  import opened Scheduler
  import opened Split
  import opened Lifecycle
  import opened Coordinator
  import Barrier
  import History
  import StepFacts
  import Cdip

  const PIPELINE := "pipeline_layers"

  /** What of a catalog model goes into a plan. */
  datatype Model = Model(id: string, runtime: string, url: string, memoryBytes: nat, diskBytes: nat)

  // ----- the shard manifest -----

  function ShardFor(model: Model, p: PlanStage): Cdip.ModelShard {
    Cdip.ModelShard(
      Cdip.Stage(p.index, p.nodeId, p.nodeName, p.layerStart, p.layerEnd),
      model.runtime, p.memoryBytes, p.diskBytes, model.url, Cdip.LogicalLayers)
  }

  function ShardsFor(model: Model, stages: seq<PlanStage>): (shards: seq<Cdip.ModelShard>)
    ensures |shards| == |stages| && forall i :: 0 <= i < |stages| ==> shards[i] == ShardFor(model, stages[i])
  {
    seq(|stages|, i requires 0 <= i < |stages| => ShardFor(model, stages[i]))
  }

  /** The shard holds the stage's layers, as layers of the model's own file. */
  predicate IsShardOf(shard: Cdip.ModelShard, model: Model, p: PlanStage) {
    && shard.stage.index == p.index && shard.stage.nodeId == p.nodeId && shard.stage.nodeName == p.nodeName
    && shard.stage.layerStart == p.layerStart && shard.stage.layerEnd == p.layerEnd
    && shard.runtime == model.runtime && shard.sourceArtifact == model.url
    && shard.requiredMemoryBytes == p.memoryBytes && shard.requiredDiskBytes == p.diskBytes
    && shard.materialization == Cdip.LogicalLayers
  }

  method ShardManifest(model: Model, stages: seq<PlanStage>, totalLayers: int) returns (m: Cdip.ShardManifest)
    ensures m == ManifestOf(model, stages, totalLayers)
    ensures m.modelId == model.id && m.runtime == model.runtime && m.mode == "pipeline_layers"
    ensures m.totalLayers == totalLayers
    ensures m.materialization == Cdip.LogicalLayers && |m.shards| == |stages|
    ensures forall i :: 0 <= i < |stages| ==> IsShardOf(m.shards[i], model, stages[i])
  {
    var shards: seq<Cdip.ModelShard> := [];
    for i := 0 to |stages|
      invariant shards == ShardsFor(model, stages)[..i]
    {
      shards := shards + [ShardFor(model, stages[i])];
    }
    assert ShardsFor(model, stages)[..|stages|] == ShardsFor(model, stages);
    m := Cdip.ShardManifest(model.id, model.runtime, PIPELINE, totalLayers, Cdip.LogicalLayers, shards);
  }

  // ----- the stage job requests -----

  function AssignmentFor(p: PlanStage): StageAssignment {
    StageAssignment(p.index, p.nodeId, p.nodeName, p.layerStart, p.layerEnd, p.layers)
  }

  function AssignmentsFor(stages: seq<PlanStage>): (out: seq<StageAssignment>)
    ensures |out| == |stages| && forall i :: 0 <= i < |stages| ==> out[i] == AssignmentFor(stages[i])
  {
    seq(|stages|, i requires 0 <= i < |stages| => AssignmentFor(stages[i]))
  }

  predicate Matches(shard: Cdip.ModelShard, stage: StageAssignment) {
    && shard.stage.index == stage.index && shard.stage.nodeId == stage.nodeId
    && shard.stage.layerStart == stage.layerStart && shard.stage.layerEnd == stage.layerEnd
  }

  /** Shard and stage say the same: position, worker, first and last layer. */
  predicate SaysTheSame(shard: Cdip.ModelShard, stage: StageAssignment) {
    && shard.stage.index == stage.index
    && shard.stage.nodeId == stage.nodeId
    && shard.stage.layerStart == stage.layerStart
    && shard.stage.layerEnd == stage.layerEnd
  }

  /** A named parent and model, and two or more stages on named workers, numbered from 0, each with a shard that says
      the same. */
  predicate IsSoundPlan(
      parent: string, modelId: string, stages: seq<StageAssignment>, shards: seq<Cdip.ModelShard>) {
    && parent != "" && Shows(modelId) && 2 <= |stages| == |shards|
    && forall i :: 0 <= i < |stages| ==>
         Shows(stages[i].nodeId) && stages[i].index == i && SaysTheSame(shards[i], stages[i])
  }

  lemma AcceptsMeans(parent: string, modelId: string, stages: seq<StageAssignment>, shards: seq<Cdip.ModelShard>)
    ensures AcceptsPlan(parent, modelId, stages, shards) <==> IsSoundPlan(parent, modelId, stages, shards)
  {
    hide TrimSpace, Shows;
    BlankMeans(modelId);
    forall i | 0 <= i < |stages| ensures !Blank(stages[i].nodeId) <==> Shows(stages[i].nodeId) {
      BlankMeans(stages[i].nodeId);
    }
  }

  /** The plans that stage job requests can be made of. */
  predicate AcceptsPlan(parent: string, modelId: string, stages: seq<StageAssignment>, shards: seq<Cdip.ModelShard>) {
    && parent != "" && !Blank(modelId) && |stages| >= 2 && |shards| == |stages|
    && forall i :: 0 <= i < |stages| ==>
         !Blank(stages[i].nodeId) && stages[i].index == i && Matches(shards[i], stages[i])
  }

  function StageInputAt(
      parent: string, modelId: string, stages: seq<StageAssignment>, shards: seq<Cdip.ModelShard>, i: nat): StageInput
    requires i < |stages| == |shards|
  {
    StageInput(parent, modelId, stages[i], shards[i],
      if i > 0 then stages[i - 1].nodeId else "",
      if i < |stages| - 1 then stages[i + 1].nodeId else "")
  }

  /** The request for a stage's job: one attempt, pinned to its worker, started by the coordinator alone. */
  function RequestAt(
      parent: string, modelId: string, stages: seq<StageAssignment>, shards: seq<Cdip.ModelShard>,
      i: nat): CreateRequest
    requires i < |stages| == |shards|
  {
    CreateRequest(JOB_STAGE, ForStage(StageInputAt(parent, modelId, stages, shards, i)),
      "distributed-coordinator:" + parent, stages[i].nodeId, Requirements(1, 0, 0, false, 0),
      1, true, Cdip.Planned, parent, stages[i].index)
  }

  /** A request for a stage of this parent, in its position, on its own worker, given one attempt and one core and left
      to the coordinator; its input is the stage, its shard and the workers before and after it, if any. */
  predicate AsksForStage(
      req: CreateRequest, parent: string, modelId: string, stages: seq<StageAssignment>,
      shards: seq<Cdip.ModelShard>, i: nat)
    requires i < |stages| == |shards|
  {
    && req.kind == "model.generate.distributed.stage" && req.requestedBy == "distributed-coordinator:" + parent
    && req.assignedTo == stages[i].nodeId && req.maxAttempts == 1 && req.noAutoAssign
    && req.requirements.cpuCores == 1 && req.requirements.memoryBytes == req.requirements.diskBytes == 0
    && !req.requirements.gpuRequired && req.requirements.vramBytes == 0
    && req.cdipParent == parent && req.cdipIndex == stages[i].index && req.cdipState == Cdip.Planned
    && req.input.ForStage?
    && var input := req.input.stage;
    && input.parentJobId == parent && input.modelId == modelId && input.stage == stages[i] && input.shard == shards[i]
    && (if i == 0 then input.upstreamNodeId == "" else input.upstreamNodeId == stages[i - 1].nodeId)
    && (if i == |stages| - 1 then input.downstreamNodeId == "" else input.downstreamNodeId == stages[i + 1].nodeId)
  }

  /** Requests are made for exactly the plans that pass every check, one per stage in plan order. */
  method StageJobRequests(parent: string, modelId: string, stages: seq<StageAssignment>, shards: seq<Cdip.ModelShard>)
    returns (out: Option<seq<CreateRequest>>)
    ensures out.Some? <==> AcceptsPlan(parent, modelId, stages, shards)
    ensures out.Some? <==> IsSoundPlan(parent, modelId, stages, shards)
    ensures out.Some? ==> |out.value| == |stages|
    ensures out.Some? ==> forall i :: 0 <= i < |stages| ==>
      out.value[i] == RequestAt(parent, modelId, stages, shards, i)
    ensures out.Some? ==> forall i :: 0 <= i < |stages| ==>
      AsksForStage(out.value[i], parent, modelId, stages, shards, i)
  {
    hide Blank, Matches, IsSoundPlan;
    AcceptsMeans(parent, modelId, stages, shards);
    if parent == "" || Blank(modelId) || |stages| < 2 || |shards| != |stages| {
      return None;
    }
    var requests: seq<CreateRequest> := [];
    for i := 0 to |stages|
      invariant |requests| == i
      invariant forall k :: 0 <= k < i ==>
        !Blank(stages[k].nodeId) && stages[k].index == k && Matches(shards[k], stages[k])
      invariant forall k :: 0 <= k < i ==> requests[k] == RequestAt(parent, modelId, stages, shards, k)
    {
      if Blank(stages[i].nodeId) || stages[i].index != i || !Matches(shards[i], stages[i]) {
        return None;
      }
      var upstream, downstream := "", "";
      if i > 0 {
        upstream := stages[i - 1].nodeId;
      }
      if i < |stages| - 1 {
        downstream := stages[i + 1].nodeId;
      }
      var input := StageInput(parent, modelId, stages[i], shards[i], upstream, downstream);
      requests := requests + [CreateRequest(JOB_STAGE, ForStage(input), "distributed-coordinator:" + parent,
        stages[i].nodeId, Requirements(1, 0, 0, false, 0), 1, true, Cdip.Planned, parent, stages[i].index)];
    }
    return Some(requests);
  }

  function ManifestOf(model: Model, stages: seq<PlanStage>, total: int): Cdip.ShardManifest {
    Cdip.ShardManifest(model.id, model.runtime, PIPELINE, total, Cdip.LogicalLayers, ShardsFor(model, stages))
  }

  // ----- the stage jobs and their order -----

  /** The job a stage request becomes. */
  function StageJob(id: string, req: CreateRequest, now: int): Job {
    NewJob(id, req, now).(assignedTo := req.assignedTo, lastFailure := FOR_COORDINATOR)
  }

  /** Creating the batch stores each stage job pinned to its worker, whatever the state of the workers. */
  lemma {:induction false} BatchStoresStageJobs(
      s: Store, ids: seq<string>, reqs: seq<CreateRequest>, now: int, s': Store, i: nat)
    requires |ids| == |reqs| && CreatesBatch(s, ids, reqs, now, s') && i < |ids|
    requires forall k :: 0 <= k < |reqs| ==> reqs[k].noAutoAssign
    requires forall k, n :: 0 <= k < n < |ids| ==> ids[k] != ids[n]
    ensures ids[i] in s'.jobs && s'.jobs[ids[i]] == StageJob(ids[i], reqs[i], now)
    decreases |ids|
  {
    var m: Store :| CreatesBatch(s, Init(ids), Init(reqs), now, m) && Creates(m, Last(ids), Last(reqs), now, s');
    if i < |ids| - 1 {
      BatchStoresStageJobs(s, Init(ids), Init(reqs), now, m, i);
      assert Init(ids)[i] == ids[i] && ids[i] != Last(ids);
    }
  }

  lemma {:induction false} BatchAddsOnly(s: Store, ids: seq<string>, reqs: seq<CreateRequest>, now: int, s': Store)
    requires |ids| == |reqs| && CreatesBatch(s, ids, reqs, now, s')
    ensures forall id :: id in s'.jobs <==> id in s.jobs || id in ids
    ensures forall id :: id in s.jobs && id !in ids ==> s'.jobs[id] == s.jobs[id]
    decreases |ids|
  {
    hide Places;
    if ids != [] {
      var m: Store :| CreatesBatch(s, Init(ids), Init(reqs), now, m) && Creates(m, Last(ids), Last(reqs), now, s');
      BatchAddsOnly(s, Init(ids), Init(reqs), now, m);
      assert ids == Init(ids) + [Last(ids)];
    }
  }

  /** A strictly increasing list of the numbers below its length counts up from 0. */
  lemma {:induction false} IncreasingIsIdentity(xs: seq<int>, k: nat)
    requires k < |xs| && forall i :: 0 <= i < |xs| ==> 0 <= xs[i] < |xs|
    requires forall i, j :: 0 <= i < j < |xs| ==> xs[i] < xs[j]
    ensures xs[k] == k
  {
    AtLeast(xs, k);
    AtMost(xs, k);
  }

  lemma {:induction false} AtLeast(xs: seq<int>, k: nat)
    requires k < |xs| && forall i :: 0 <= i < |xs| ==> 0 <= xs[i]
    requires forall i, j :: 0 <= i < j < |xs| ==> xs[i] < xs[j]
    ensures xs[k] >= k
  {
    if k > 0 {
      AtLeast(xs, k - 1);
    }
  }

  lemma {:induction false} AtMost(xs: seq<int>, k: nat)
    requires k < |xs| && forall i :: 0 <= i < |xs| ==> xs[i] < |xs|
    requires forall i, j :: 0 <= i < j < |xs| ==> xs[i] < xs[j]
    ensures xs[k] <= k
    decreases |xs| - k
  {
    if k < |xs| - 1 {
      AtMost(xs, k + 1);
    }
  }

  /** The stage jobs carry their position in the plan. */
  predicate Numbered(s: Store, ids: seq<string>) {
    forall i :: 0 <= i < |ids| ==> ids[i] in s.jobs && s.jobs[ids[i]].cdipIndex == i
  }

  /** Listing the parent's stage jobs restores plan order, whatever order the store returns its jobs in. */
  lemma OrderIsRestored(s: Store, parent: string, ids: seq<string>, list: seq<string>)
    requires Numbered(s, ids) && (forall id :: id in ids <==> id in StageIds(s, parent))
    requires IsStageList(s, parent, list)
    ensures list == ids
  {
    var index := seq(|list|, k requires 0 <= k < |list| => s.jobs[list[k]].cdipIndex);
    forall k | 0 <= k < |list| ensures 0 <= index[k] < |ids| && ids[index[k]] == list[k] {
      assert list[k] in ids;
    }
    forall i, j | 0 <= i < j < |list| ensures index[i] < index[j] {
      assert !Before(s.jobs[list[j]], s.jobs[list[i]]);
      assert list[i] != list[j];
    }
    SameLength(ids, list);
    forall k | 0 <= k < |list| ensures list[k] == ids[k] {
      IncreasingIsIdentity(index, k);
    }
  }

  lemma SameLength(a: seq<string>, b: seq<string>)
    requires forall id :: id in a <==> id in b
    requires forall i, j :: 0 <= i < j < |a| ==> a[i] != a[j]
    requires forall i, j :: 0 <= i < j < |b| ==> b[i] != b[j]
    ensures |a| == |b|
  {
    DistinctSize(a);
    DistinctSize(b);
    assert (set x | x in a) == (set x | x in b);
  }

  // ----- prepare messages and the worker's check -----

  /** The coordinator's prepare message for a stage job; its input must be a stage input of this parent. */
  function PrepareMessage(parent: string, j: Job): Option<Cdip.StagePrepare> {
    if j.input.ForStage? && j.input.stage.parentJobId == parent then
      var input := j.input.stage;
      var msg := Cdip.StagePrepare(parent, j.id, input.modelId, input.shard.stage, input.upstreamNodeId,
        input.downstreamNodeId);
      if msg.Valid() then Some(msg) else None
    else None
  }

  /** The job's input is a stage input of this parent, with a named model, on a named worker, with at least one
      layer. */
  predicate CanBePrepared(parent: string, j: Job) {
    && j.input.ForStage? && j.input.stage.parentJobId == parent && Shows(parent) && Shows(j.id)
    && Shows(j.input.stage.modelId) && Shows(j.input.stage.shard.stage.nodeId)
    && j.input.stage.shard.stage.layerStart <= j.input.stage.shard.stage.layerEnd
  }

  /** Which messages can be made, and what they say. */
  lemma PrepareMessageMeans(parent: string, j: Job)
    ensures PrepareMessage(parent, j).Some? <==> CanBePrepared(parent, j)
    ensures PrepareMessage(parent, j).Some? ==>
      var m, input := PrepareMessage(parent, j).value, j.input.stage;
      && m.parentJobId == parent && m.stageJobId == j.id && m.modelId == input.modelId && m.stage == input.shard.stage
      && m.upstreamNodeId == input.upstreamNodeId && m.downstreamNodeId == input.downstreamNodeId
  {
    hide TrimSpace, Shows;
    BlankMeans(parent);
    BlankMeans(j.id);
    if j.input.ForStage? {
      BlankMeans(j.input.stage.modelId);
      BlankMeans(j.input.stage.shard.stage.nodeId);
    }
  }

  /** Messages for every listed stage, or none when one of them cannot be made. */
  method PrepareMessages(s: Store, parent: string, list: seq<string>) returns (out: Option<seq<Cdip.StagePrepare>>)
    requires forall id :: id in list ==> id in s.jobs
    ensures out.Some? <==> forall i :: 0 <= i < |list| ==> PrepareMessage(parent, s.jobs[list[i]]).Some?
    ensures out.Some? <==> forall i :: 0 <= i < |list| ==> CanBePrepared(parent, s.jobs[list[i]])
    ensures out.Some? ==> |out.value| == |list|
    ensures out.Some? ==> forall i :: 0 <= i < |list| ==> PrepareMessage(parent, s.jobs[list[i]]) == Some(out.value[i])
  {
    hide PrepareMessage, CanBePrepared;
    forall i | 0 <= i < |list|
      ensures PrepareMessage(parent, s.jobs[list[i]]).Some? <==> CanBePrepared(parent, s.jobs[list[i]])
    {
      PrepareMessageMeans(parent, s.jobs[list[i]]);
    }
    var messages: seq<Cdip.StagePrepare> := [];
    for i := 0 to |list|
      invariant |messages| == i
      invariant forall k :: 0 <= k < i ==> PrepareMessage(parent, s.jobs[list[k]]) == Some(messages[k])
    {
      var msg := PrepareMessage(parent, s.jobs[list[i]]);
      if msg.None? {
        return None;
      }
      messages := messages + [msg.value];
    }
    return Some(messages);
  }

  datatype StageReady = StageReady(parentJobId: string, stageIndex: int, runtime: string, layerStart: int,
    layerEnd: int,
    upstreamNodeId: string, downstreamNodeId: string)

  /** What the worker's stage runtime answers to a prepare request. */
  function PrepareStage(runtime: string, input: StageInput, stageJobId: string): Option<StageReady> {
    if Blank(input.parentJobId) || Blank(input.modelId) || Blank(runtime) then None
    else if !Matches(input.shard, input.stage) || input.shard.materialization != Cdip.LogicalLayers then None
    else
      var jobId := if Blank(stageJobId) then "worker-local-stage-prepare" else stageJobId;
      var msg := Cdip.StagePrepare(input.parentJobId, jobId, input.modelId, input.shard.stage,
        input.upstreamNodeId, input.downstreamNodeId);
      if !msg.Valid() then None
      else Some(StageReady(input.parentJobId, input.stage.index, runtime, input.shard.stage.layerStart,
        input.shard.stage.layerEnd, input.upstreamNodeId, input.downstreamNodeId))
  }

  /** The worker's run of a stage job, on a worker whose runtime and model are ready. */
  function RunStageJob(input: StageInput): Option<StageReady> {
    PrepareStage(TrimSpace(input.shard.runtime), input, "worker-local-stage-prepare")
  }

  /** The worker takes a stage input exactly when it names its job, model, runtime and worker, its shard says what its
      stage does and is of logical layers, and there is at least one; and answers with what the input says. */
  lemma RunStageJobMeans(input: StageInput)
    ensures RunStageJob(input).Some? <==>
      && Shows(input.parentJobId) && Shows(input.modelId) && Shows(input.shard.runtime)
      && SaysTheSame(input.shard, input.stage) && input.shard.materialization == Cdip.LogicalLayers
      && Shows(input.stage.nodeId) && input.stage.layerStart <= input.stage.layerEnd
    ensures RunStageJob(input).Some? ==>
      var answer := RunStageJob(input).value;
      && answer.parentJobId == input.parentJobId && answer.stageIndex == input.stage.index
      && IsTrimOf(answer.runtime, input.shard.runtime)
      && answer.layerStart == input.stage.layerStart && answer.layerEnd == input.stage.layerEnd
      && answer.upstreamNodeId == input.upstreamNodeId && answer.downstreamNodeId == input.downstreamNodeId
  {
    hide Shows, IsTrimOf;
    BlankMeans(input.parentJobId);
    BlankMeans(input.modelId);
    BlankMeans(input.shard.runtime);
    BlankMeans(input.stage.nodeId);
    TrimSpaceMeans(input.shard.runtime);
    TrimSpaceTrims(input.shard.runtime);
    TrimSpaceTrims(TrimSpace(input.shard.runtime));
    TrimKeepsVisibleEnd("worker-local-stage-prepare");
    hide TrimSpace;
  }

  /** Whatever the manager does later, short of giving the parent more stage jobs, the listing stays in plan order. */
  lemma {:induction false} OrderStaysRestored(
    states: seq<Store>, ops: seq<Op>, nows: seq<int>, parent: string, ids: seq<string>, i: nat, list: seq<string>)
    requires History.IsRun(states, ops, nows) && i < |states|
    requires Numbered(states[0], ids) && (forall id :: id in ids <==> id in StageIds(states[0], parent))
    requires forall k :: 0 <= k < |ops| ==> Allowed(states[k], parent, ops[k]) || ops[k].MoveStage? || ops[k].Close?
    requires IsStageList(states[i], parent, list)
    ensures list == ids
  {
    hide IsStageList, History.IsRun;
    NumberingStays(states, ops, nows, parent, ids, i);
    OrderIsRestored(states[i], parent, ids, list);
  }

  lemma {:induction false} NumberingStays(
    states: seq<Store>, ops: seq<Op>, nows: seq<int>, parent: string, ids: seq<string>, i: nat)
    requires History.IsRun(states, ops, nows) && i < |states|
    requires Numbered(states[0], ids)
    requires forall k :: 0 <= k < |ops| ==> Allowed(states[k], parent, ops[k]) || ops[k].MoveStage? || ops[k].Close?
    ensures Numbered(states[i], ids) && StageIds(states[i], parent) == StageIds(states[0], parent)
    decreases i
  {
    hide Step, StepFacts.Valid, Makes, Allowed, StageIds;
    if i > 0 {
      NumberingStays(states, ops, nows, parent, ids, i - 1);
      History.RunKeepsValid(states, ops, nows, i - 1);
      assert Step(states[i - 1], ops[i - 1], nows[i - 1], states[i]);
      Barrier.StagesFixed(states[i - 1], parent, ops[i - 1], nows[i - 1], states[i]);
      forall k | 0 <= k < |ids| ensures ids[k] in states[i].jobs && states[i].jobs[ids[k]].cdipIndex == k {
        StepFacts.MovesSound(states[i - 1].jobs[ids[k]], states[i].jobs[ids[k]]);
      }
    }
  }
}
