/** A plan on its way from the planner to the workers: which of the checks it meets it passes, and when. */
module Delivery {
  import opened Options
  import opened Text
  import opened Jobs
  import opened Scheduler
  import opened Selection
  import opened Split
  import opened Lifecycle
  import opened Coordinator
  import Cdip
  import opened Handoff

  /** The plan was built for these workers. */
  ghost predicate IsPlanFor(
      model: Model, nodes: seq<Node>, total: nat, stages: seq<PlanStage>, starts: seq<int>, layers: seq<int>) {
    && 2 <= |nodes| && total > 0
    && (forall i :: 0 <= i < |nodes| ==> IsCandidate(nodes[i]) && !Blank(nodes[i].id))
    && !Blank(model.id) && !Blank(model.runtime)
    && IsPlan(stages, nodes, total, model.memoryBytes, model.diskBytes, starts, layers)
  }

  lemma PlanStageFacts(
      model: Model, nodes: seq<Node>, total: nat, stages: seq<PlanStage>, starts: seq<int>, layers: seq<int>, i: nat)
    requires IsPlanFor(model, nodes, total, stages, starts, layers) && i < |nodes|
    ensures stages[i].index == i && stages[i].nodeId == nodes[i].id
    ensures stages[i].layerStart == starts[i] && stages[i].layerEnd == starts[i + 1] - 1
    ensures stages[i].layers == layers[i] == starts[i + 1] - starts[i]
    ensures |nodes| <= total ==> layers[i] >= 1
  {
    hide Sum, ClampedShare, ProportionalBytes, IsCandidate;
    if |nodes| <= total {
      SplitLeavesEnough(NetMemory(nodes), total, starts, layers, i);
    }
  }

  /** The manifest of a plan is one that `ValidateManifest` accepts, covering layers 0 to total - 1, if and only if
      there are no more stages than layers. */
  lemma PlanManifestCovers(
      model: Model, nodes: seq<Node>, total: nat, stages: seq<PlanStage>, starts: seq<int>, layers: seq<int>)
    requires IsPlanFor(model, nodes, total, stages, starts, layers)
    ensures Cdip.Covers(ManifestOf(model, stages, total)) <==> |nodes| <= total
  {
    hide Sum, ClampedShare, ProportionalBytes, IsCandidate, StageFor, TrimSpace, Blank;
    EndIsVisible(PIPELINE);
    var chain := Cdip.StagesOf(ShardsFor(model, stages));
    forall i | 0 <= i < |nodes|
      ensures chain[i].index == i && !Blank(chain[i].nodeId)
      ensures chain[i].layerStart == starts[i] && chain[i].layerEnd == starts[i + 1] - 1
      ensures chain[i].layerEnd == chain[i].layerStart + layers[i] - 1
    {
      PlanStageFacts(model, nodes, total, stages, starts, layers, i);
    }
    EveryStageHasALayer(NetMemory(nodes), total, starts, layers);
    SplitIsExact(NetMemory(nodes), total, starts, layers);
    assert Cdip.IsChain(chain) <==> |nodes| <= total;
  }

  /** The stage job requests of any plan are made: `StageJobRequests` does not look at the number of layers. */
  lemma PlanIsAccepted(
      parent: string, model: Model, nodes: seq<Node>, total: nat, stages: seq<PlanStage>, starts: seq<int>,
      layers: seq<int>)
    requires IsPlanFor(model, nodes, total, stages, starts, layers) && parent != ""
    ensures AcceptsPlan(parent, model.id, AssignmentsFor(stages), ShardsFor(model, stages))
  {
    hide Sum, ClampedShare, ProportionalBytes, IsCandidate, StageFor;
    forall i | 0 <= i < |nodes|
      ensures !Blank(AssignmentsFor(stages)[i].nodeId) && AssignmentsFor(stages)[i].index == i
      ensures Matches(ShardsFor(model, stages)[i], AssignmentsFor(stages)[i])
    {
      PlanStageFacts(model, nodes, total, stages, starts, layers, i);
    }
  }

  function PlanRequests(parent: string, model: Model, stages: seq<PlanStage>): (reqs: seq<CreateRequest>)
    ensures |reqs| == |stages|
    ensures forall i :: 0 <= i < |stages| ==>
      reqs[i] == RequestAt(parent, model.id, AssignmentsFor(stages), ShardsFor(model, stages), i)
  {
    seq(|stages|, i requires 0 <= i < |stages| => RequestAt(parent, model.id, AssignmentsFor(stages), ShardsFor(model,
      stages), i))
  }

  /** What the worker of stage `i` answers: the layers and the neighbours the plan gave it. */
  function AnswerFor(parent: string, model: Model, nodes: seq<Node>, starts: seq<int>, i: nat): StageReady
    requires i < |nodes| && |starts| == |nodes| + 1
  {
    StageReady(parent, i, TrimSpace(model.runtime), starts[i], starts[i + 1] - 1,
      if i > 0 then nodes[i - 1].id else "",
      if i < |nodes| - 1 then nodes[i + 1].id else "")
  }

  /** End to end. Stage jobs created from a plan are listed in plan order; each is pinned to its worker; and exactly
      for the stages that hold a layer the coordinator can make the prepare message and the worker accepts it,
      answering with the layers and the neighbours the plan gave it. */
  lemma PlanSurvivesHandoff(
    s: Store, parent: string, model: Model, nodes: seq<Node>, total: nat,
    stages: seq<PlanStage>, starts: seq<int>, layers: seq<int>,
    ids: seq<string>, now: int, s': Store, list: seq<string>, i: nat)
    requires IsPlanFor(model, nodes, total, stages, starts, layers) && !Blank(parent)
    requires StageIds(s, parent) == {} && |ids| == |nodes| == |stages|
    requires forall k :: 0 <= k < |ids| ==> !Blank(ids[k]) && ids[k] !in s.jobs
    requires forall k, n :: 0 <= k < n < |ids| ==> ids[k] != ids[n]
    requires CreatesBatch(s, ids, PlanRequests(parent, model, stages), now, s')
    requires IsStageList(s', parent, list) && i < |nodes|
    ensures list == ids && ids[i] in s'.jobs
    ensures var j := s'.jobs[ids[i]];
      && PinnedTo(j, nodes[i].id) && EndsAgree(j) && j.status == Queued
      && (PrepareMessage(parent, j).Some? <==> layers[i] >= 1)
      && j.input.ForStage?
      && (RunStageJob(j.input.stage).Some? <==> layers[i] >= 1)
      && (layers[i] >= 1 ==> RunStageJob(j.input.stage) == Some(AnswerFor(parent, model, nodes, starts, i)))
  {
    hide IsPlanFor, StageIds, IsStageList, CreatesBatch, StageJob, RunStageJob, PrepareMessage;
    BatchIsNumbered(s, parent, model, nodes, total, stages, starts, layers, ids, now, s');
    OrderIsRestored(s', parent, ids, list);
    StageJobIsAccepted(parent, model, nodes, total, stages, starts, layers, ids[i], now, i);
  }

  /** The coordinator can prepare the whole plan if and only if there are no more stages than layers. */
  lemma PlanIsPreparedExactlyWhen(
    s: Store, parent: string, model: Model, nodes: seq<Node>, total: nat,
    stages: seq<PlanStage>, starts: seq<int>, layers: seq<int>,
    ids: seq<string>, now: int, s': Store, list: seq<string>)
    requires IsPlanFor(model, nodes, total, stages, starts, layers) && !Blank(parent)
    requires StageIds(s, parent) == {} && |ids| == |nodes| == |stages|
    requires forall k :: 0 <= k < |ids| ==> !Blank(ids[k]) && ids[k] !in s.jobs
    requires forall k, n :: 0 <= k < n < |ids| ==> ids[k] != ids[n]
    requires CreatesBatch(s, ids, PlanRequests(parent, model, stages), now, s') && IsStageList(s', parent, list)
    ensures (forall i :: 0 <= i < |list| ==> list[i] in s'.jobs && PrepareMessage(parent, s'.jobs[list[i]]).Some?)
      <==> |nodes| <= total
  {
    hide StageIds, IsStageList, CreatesBatch, StageJob, RunStageJob, PrepareMessage, IsCandidate, StageFor;
    hide ProportionalBytes, ClampedShare, Sum;
    PlanSurvivesHandoff(s, parent, model, nodes, total, stages, starts, layers, ids, now, s', list, 0);
    forall i | 0 <= i < |nodes|
      ensures ids[i] in s'.jobs
      ensures PrepareMessage(parent, s'.jobs[ids[i]]).Some? <==> layers[i] >= 1
    {
      PlanSurvivesHandoff(s, parent, model, nodes, total, stages, starts, layers, ids, now, s', list, i);
    }
    EveryStageHasALayer(NetMemory(nodes), total, starts, layers);
  }

  lemma StageJobIsAccepted(
    parent: string, model: Model, nodes: seq<Node>, total: nat,
    stages: seq<PlanStage>, starts: seq<int>, layers: seq<int>, id: string, now: int, i: nat)
    requires IsPlanFor(model, nodes, total, stages, starts, layers) && !Blank(parent) && !Blank(id) && i < |nodes|
    ensures var j := StageJob(id, PlanRequests(parent, model, stages)[i], now);
      && PinnedTo(j, nodes[i].id) && EndsAgree(j) && j.status == Queued
      && (PrepareMessage(parent, j).Some? <==> layers[i] >= 1)
      && j.input.ForStage?
      && (RunStageJob(j.input.stage).Some? <==> layers[i] >= 1)
      && (layers[i] >= 1 ==> RunStageJob(j.input.stage) == Some(AnswerFor(parent, model, nodes, starts, i)))
  {
    hide IsPlanFor, PrepareMessage, RunStageJob, AnswerFor, Blank;
    StageIsPrepared(parent, model, nodes, total, stages, starts, layers, id, now, i);
    WorkerAnswers(parent, model, nodes, total, stages, starts, layers, i);
  }

  lemma StageIsPrepared(
    parent: string, model: Model, nodes: seq<Node>, total: nat,
    stages: seq<PlanStage>, starts: seq<int>, layers: seq<int>, id: string, now: int, i: nat)
    requires IsPlanFor(model, nodes, total, stages, starts, layers) && !Blank(parent) && !Blank(id) && i < |nodes|
    ensures var j := StageJob(id, PlanRequests(parent, model, stages)[i], now);
      && PinnedTo(j, nodes[i].id) && EndsAgree(j) && j.status == Queued
      && (PrepareMessage(parent, j).Some? <==> layers[i] >= 1)
  {
    hide Sum, ClampedShare, ProportionalBytes, IsCandidate, StageFor, IsSplit, TrimSpace, Blank;
    PlanStageFacts(model, nodes, total, stages, starts, layers, i);
  }

  lemma WorkerAnswers(
    parent: string, model: Model, nodes: seq<Node>, total: nat,
    stages: seq<PlanStage>, starts: seq<int>, layers: seq<int>, i: nat)
    requires IsPlanFor(model, nodes, total, stages, starts, layers) && !Blank(parent) && i < |nodes|
    ensures |starts| == |nodes| + 1 && |layers| == |nodes| == |stages|
    ensures PlanRequests(parent, model, stages)[i].input.ForStage?
    ensures var answer := RunStageJob(PlanRequests(parent, model, stages)[i].input.stage);
      && (answer.Some? <==> layers[i] >= 1)
      && (answer.Some? ==> answer.value == AnswerFor(parent, model, nodes, starts, i))
  {
    hide IsPlanFor, RunStageJob, AnswerFor, RequestAt, Blank;
    InputOfStage(parent, model, nodes, total, stages, starts, layers, i);
    AnswersInput(parent, model, nodes, starts, PlanRequests(parent, model, stages)[i].input.stage, i);
  }

  /** The input of stage `i`, in the plan's terms. */
  predicate IsInputOf(
      parent: string, model: Model, nodes: seq<Node>, starts: seq<int>, input: StageInput, i: nat)
    requires i < |nodes| && |starts| == |nodes| + 1
  {
    && input.parentJobId == parent && input.modelId == model.id
    && Matches(input.shard, input.stage) && input.stage.index == i
    && input.shard.stage.nodeId == nodes[i].id && input.shard.runtime == model.runtime
    && input.shard.materialization == Cdip.LogicalLayers
    && input.shard.stage.layerStart == starts[i] && input.shard.stage.layerEnd == starts[i + 1] - 1
    && input.upstreamNodeId == (if i > 0 then nodes[i - 1].id else "")
    && input.downstreamNodeId == if i < |nodes| - 1 then nodes[i + 1].id else ""
  }

  lemma InputOfStage(
    parent: string, model: Model, nodes: seq<Node>, total: nat,
    stages: seq<PlanStage>, starts: seq<int>, layers: seq<int>, i: nat)
    requires IsPlanFor(model, nodes, total, stages, starts, layers) && i < |nodes|
    ensures |starts| == |nodes| + 1 && |layers| == |nodes| == |stages|
    ensures layers[i] == starts[i + 1] - starts[i]
    ensures PlanRequests(parent, model, stages)[i].input.ForStage?
    ensures IsInputOf(parent, model, nodes, starts, PlanRequests(parent, model, stages)[i].input.stage, i)
    ensures !Blank(nodes[i].id) && !Blank(model.id) && !Blank(model.runtime)
  {
    hide Sum, ClampedShare, ProportionalBytes, IsCandidate, StageFor, TrimSpace, Blank;
    PlanStageFacts(model, nodes, total, stages, starts, layers, i);
    if i > 0 {
      PlanStageFacts(model, nodes, total, stages, starts, layers, i - 1);
    }
    if i < |nodes| - 1 {
      PlanStageFacts(model, nodes, total, stages, starts, layers, i + 1);
    }
  }

  lemma AnswersInput(parent: string, model: Model, nodes: seq<Node>, starts: seq<int>, input: StageInput, i: nat)
    requires i < |nodes| && |starts| == |nodes| + 1 && IsInputOf(parent, model, nodes, starts, input, i)
    requires !Blank(parent) && !Blank(nodes[i].id) && !Blank(model.id) && !Blank(model.runtime)
    ensures var answer := RunStageJob(input);
      && (answer.Some? <==> starts[i + 1] - starts[i] >= 1)
      && (answer.Some? ==> answer.value == AnswerFor(parent, model, nodes, starts, i))
  {
    hide TrimSpace, Blank;
    EndIsVisible("worker-local-stage-prepare");
    TrimmedIsVisible(model.runtime);
  }

  /** The created stage jobs are exactly the parent's, each at its place in the plan. */
  lemma BatchIsNumbered(
    s: Store, parent: string, model: Model, nodes: seq<Node>, total: nat,
    stages: seq<PlanStage>, starts: seq<int>, layers: seq<int>, ids: seq<string>, now: int, s': Store)
    requires IsPlanFor(model, nodes, total, stages, starts, layers)
    requires StageIds(s, parent) == {} && |ids| == |nodes| == |stages|
    requires forall k, n :: 0 <= k < n < |ids| ==> ids[k] != ids[n]
    requires CreatesBatch(s, ids, PlanRequests(parent, model, stages), now, s')
    ensures Numbered(s', ids) && (forall id :: id in ids <==> id in StageIds(s', parent))
    ensures forall k :: 0 <= k < |ids| ==>
      s'.jobs[ids[k]] == StageJob(ids[k], PlanRequests(parent, model, stages)[k], now)
  {
    hide IsPlanFor, StageIds, CreatesBatch;
    var reqs := PlanRequests(parent, model, stages);
    forall k | 0 <= k < |ids|
      ensures ids[k] in s'.jobs && s'.jobs[ids[k]] == StageJob(ids[k], reqs[k], now)
        && IsStageOf(s'.jobs[ids[k]], parent)
      ensures s'.jobs[ids[k]].cdipIndex == k
    {
      BatchStoresStageJobs(s, ids, reqs, now, s', k);
      PlanStageFacts(model, nodes, total, stages, starts, layers, k);
    }
    BatchAddsOnly(s, ids, reqs, now, s');
    OnlyTheBatch(s, parent, ids, s');
  }

  lemma OnlyTheBatch(s: Store, parent: string, ids: seq<string>, s': Store)
    requires StageIds(s, parent) == {}
    requires forall id :: id in s'.jobs <==> id in s.jobs || id in ids
    requires forall id :: id in s.jobs && id !in ids ==> s'.jobs[id] == s.jobs[id]
    requires forall k :: 0 <= k < |ids| ==> ids[k] in s'.jobs && IsStageOf(s'.jobs[ids[k]], parent)
    ensures forall id :: id in ids <==> id in StageIds(s', parent)
  {
    forall id | id in StageIds(s', parent) ensures id in ids {
      assert id !in StageIds(s, parent);
    }
  }

  lemma EndIsVisible(s: string)
    requires s != "" && !IsSpace(s[|s| - 1])
    ensures !Blank(s)
  {
    TrimKeepsVisibleEnd(s);
  }

  lemma TrimmedIsVisible(s: string)
    requires !Blank(s)
    ensures !Blank(TrimSpace(s))
  {
    TrimSpaceTrims(s);
    TrimSpaceTrims(TrimSpace(s));
  }
}
