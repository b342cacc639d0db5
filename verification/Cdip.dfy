/** The CDIP contract: stage states and their transitions, layer stages, shards and their checks. */
module Cdip {
  import opened Text

  /** A stage state is a string on the wire: `Unset` is "", `Other` any name the protocol does not know. */
  datatype StageState =
    | Unset | Planned | Preparing | Ready | Prefill | Decode | Completed | Failed | Aborted
    | Other(name: string)

  predicate CanTransition(from: StageState, to: StageState) {
    if from == to then true
    else match from
      case Planned => to in {Preparing, Aborted, Failed}
      case Preparing => to in {Ready, Aborted, Failed}
      case Ready => to in {Prefill, Aborted, Failed}
      case Prefill => to in {Decode, Aborted, Failed}
      case Decode => to in {Completed, Aborted, Failed}
      case _ => false
  }

  /** An absent state counts as planned. */
  function Current(state: StageState): StageState {
    if state == Unset then Planned else state
  }

  datatype Stage = Stage(index: int, nodeId: string, nodeName: string, layerStart: int, layerEnd: int)
  {
    function Layers(): int {
      if layerEnd < layerStart then 0 else layerEnd - layerStart + 1
    }
  }

  datatype Materialization = LogicalLayers | PhysicalArtifact | UnknownMaterialization(name: string)

  datatype ModelShard = ModelShard(
    stage: Stage,
    runtime: string,
    requiredMemoryBytes: nat,
    requiredDiskBytes: nat,
    sourceArtifact: string,
    materialization: Materialization)

  datatype ShardManifest = ShardManifest(
    modelId: string,
    runtime: string,
    mode: string,
    totalLayers: int,
    materialization: Materialization,
    shards: seq<ModelShard>)

  datatype StagePrepare = StagePrepare(
    parentJobId: string,
    stageJobId: string,
    modelId: string,
    stage: Stage,
    upstreamNodeId: string,
    downstreamNodeId: string)
  {
    predicate Valid() {
      && !Blank(parentJobId)
      && !Blank(stageJobId)
      && !Blank(modelId)
      && !Blank(stage.nodeId)
      && stage.Layers() > 0
    }
  }

  /** What a stage chain is: indices count up from 0, every stage names a node and owns a
      non-empty layer range, and each range starts right after the previous one. */
  predicate IsChain(stages: seq<Stage>) {
    && (forall i :: 0 <= i < |stages| ==>
          && stages[i].index == i
          && !Blank(stages[i].nodeId)
          && stages[i].layerStart <= stages[i].layerEnd)
    && (forall i :: 0 < i < |stages| ==> stages[i].layerStart == stages[i - 1].layerEnd + 1)
  }

  /** `ValidateStageChain` accepts exactly the stage chains. */
  method ValidateStageChain(stages: seq<Stage>) returns (ok: bool)
    ensures ok <==> IsChain(stages)
    ensures stages != [] ==> (ok <==> ShareOut(stages, stages[0].layerStart, stages[|stages| - 1].layerEnd))
  {
    hide ShareOut;
    if stages != [] {
      ChainMeans(stages);
    }
    if |stages| == 0 {
      return true;
    }
    var expectedStart := stages[0].layerStart;
    for i := 0 to |stages|
      invariant IsChain(stages[..i])
      invariant expectedStart == if i == 0 then stages[0].layerStart else stages[i - 1].layerEnd + 1
    {
      var stage := stages[i];
      assert stages[..i + 1] == stages[..i] + [stage];
      if stage.index != i || Blank(stage.nodeId) || stage.layerStart != expectedStart ||
        stage.layerEnd < stage.layerStart {
        return false;
      }
      expectedStart := stage.layerEnd + 1;
    }
    assert stages[..|stages|] == stages;
    return true;
  }

  function StagesOf(shards: seq<ModelShard>): (stages: seq<Stage>)
    ensures |stages| == |shards|
    ensures forall i :: 0 <= i < |shards| ==> stages[i] == shards[i].stage
  {
    seq(|shards|, i requires 0 <= i < |shards| => shards[i].stage)
  }

  /** What an accepted manifest says: its shards are a chain that covers layers 0 to totalLayers - 1 exactly. */
  predicate Covers(m: ShardManifest) {
    && !Blank(m.modelId) && !Blank(m.runtime) && !Blank(m.mode)
    && m.totalLayers > 0
    && !m.materialization.UnknownMaterialization?
    && |m.shards| > 0
    && (forall i :: 0 <= i < |m.shards| ==>
          !Blank(m.shards[i].runtime) && !m.shards[i].materialization.UnknownMaterialization?)
    && IsChain(StagesOf(m.shards))
    && m.shards[0].stage.layerStart == 0
    && m.shards[|m.shards| - 1].stage.layerEnd == m.totalLayers - 1
  }

  /** In a chain the ranges only move up, so the last one bounds them all. */
  lemma {:induction false} ChainEndsGrow(stages: seq<Stage>, i: nat, j: nat)
    requires IsChain(stages) && i <= j < |stages|
    ensures stages[i].layerEnd <= stages[j].layerEnd
    decreases j - i
  {
    if i < j {
      ChainEndsGrow(stages, i, j - 1);
    }
  }

  /** In a chain every layer between the first start and the last end has exactly one owner. */
  lemma {:induction false} ChainOwnsEachLayer(stages: seq<Stage>, layer: int) returns (owner: nat)
    requires IsChain(stages) && |stages| > 0
    requires stages[0].layerStart <= layer <= stages[|stages| - 1].layerEnd
    ensures owner < |stages| && stages[owner].layerStart <= layer <= stages[owner].layerEnd
    ensures forall i :: 0 <= i < |stages| && stages[i].layerStart <= layer <= stages[i].layerEnd ==> i == owner
    decreases |stages|
  {
    var last := |stages| - 1;
    if stages[last].layerStart <= layer {
      owner := last;
      forall i | 0 <= i < last
        ensures stages[i].layerEnd < stages[last].layerStart
      {
        ChainEndsGrow(stages, i, last - 1);
      }
    } else {
      owner := ChainOwnsEachLayer(stages[..last], layer);
    }
  }

  // ----- what chains and manifests say of the layers -----

  /** Some stage has the layer. */
  predicate IsOwned(stages: seq<Stage>, layer: int) {
    exists i :: 0 <= i < |stages| && stages[i].layerStart <= layer <= stages[i].layerEnd
  }

  /** The stages, numbered in order and on named workers, share the layers `first` to `last` out among themselves: every
      stage has some, stages later in the list have later ones, and every layer has its stage. */
  ghost predicate ShareOut(stages: seq<Stage>, first: int, last: int) {
    && (forall i :: 0 <= i < |stages| ==> stages[i].index == i && Shows(stages[i].nodeId))
    && (forall i :: 0 <= i < |stages| ==> first <= stages[i].layerStart <= stages[i].layerEnd <= last)
    && (forall i, k :: 0 <= i < k < |stages| ==> stages[i].layerEnd < stages[k].layerStart)
    && (forall layer :: first <= layer <= last ==> IsOwned(stages, layer))
  }

  lemma ChainSharesOut(stages: seq<Stage>)
    requires IsChain(stages) && stages != []
    ensures ShareOut(stages, stages[0].layerStart, stages[|stages| - 1].layerEnd)
  {
    hide TrimSpace, Shows;
    var first, last := stages[0].layerStart, stages[|stages| - 1].layerEnd;
    forall i | 0 <= i < |stages|
      ensures Shows(stages[i].nodeId) && first <= stages[i].layerStart && stages[i].layerEnd <= last
    {
      BlankMeans(stages[i].nodeId);
      ChainEndsGrow(stages, i, |stages| - 1);
      if i > 0 {
        ChainEndsGrow(stages, 0, i - 1);
      }
    }
    forall i, k | 0 <= i < k < |stages| ensures stages[i].layerEnd < stages[k].layerStart {
      ChainEndsGrow(stages, i, k - 1);
    }
    forall layer | first <= layer <= last ensures IsOwned(stages, layer) {
      var owner := ChainOwnsEachLayer(stages, layer);
    }
  }

  lemma SharingIsChain(stages: seq<Stage>, first: int, last: int)
    requires ShareOut(stages, first, last) && stages != [] && first <= last
    ensures IsChain(stages) && stages[0].layerStart == first && stages[|stages| - 1].layerEnd == last
  {
    hide TrimSpace, Shows;
    forall i | 0 <= i < |stages| ensures !Blank(stages[i].nodeId) {
      BlankMeans(stages[i].nodeId);
    }
    forall i | 0 < i < |stages| ensures stages[i].layerStart == stages[i - 1].layerEnd + 1 {
      var k := i - 1;
      assert stages[k].layerEnd < stages[i].layerStart;
      assert IsOwned(stages, stages[k].layerEnd + 1);
    }
    assert IsOwned(stages, first) && IsOwned(stages, last);
  }

  /** A chain is a sharing out of the layers between its ends. */
  lemma ChainMeans(stages: seq<Stage>)
    requires stages != []
    ensures IsChain(stages) <==> ShareOut(stages, stages[0].layerStart, stages[|stages| - 1].layerEnd)
  {
    hide IsChain, ShareOut;
    if IsChain(stages) {
      ChainSharesOut(stages);
    }
    if ShareOut(stages, stages[0].layerStart, stages[|stages| - 1].layerEnd) {
      SharedRangeIsSome(stages, stages[0].layerStart, stages[|stages| - 1].layerEnd);
      SharingIsChain(stages, stages[0].layerStart, stages[|stages| - 1].layerEnd);
    }
  }

  lemma SharedRangeIsSome(stages: seq<Stage>, first: int, last: int)
    requires ShareOut(stages, first, last) && stages != []
    ensures first <= last
  {
    assert first <= stages[0].layerStart;
  }

  /** A manifest that names its model, its runtimes and its mode, and whose stages share out all the model's layers. */
  ghost predicate IsSoundManifest(m: ShardManifest) {
    && Shows(m.modelId) && Shows(m.runtime) && Shows(m.mode)
    && (m.materialization == LogicalLayers || m.materialization == PhysicalArtifact)
    && (forall i :: 0 <= i < |m.shards| ==>
          && Shows(m.shards[i].runtime)
          && (m.shards[i].materialization == LogicalLayers || m.shards[i].materialization == PhysicalArtifact))
    && m.totalLayers > 0 && ShareOut(StagesOf(m.shards), 0, m.totalLayers - 1)
  }

  lemma ManifestMeans(m: ShardManifest)
    ensures Covers(m) <==> IsSoundManifest(m)
  {
    hide TrimSpace, Shows, IsChain, ShareOut;
    BlankMeans(m.modelId);
    BlankMeans(m.runtime);
    BlankMeans(m.mode);
    forall i | 0 <= i < |m.shards| ensures Blank(m.shards[i].runtime) <==> !Shows(m.shards[i].runtime) {
      BlankMeans(m.shards[i].runtime);
    }
    if Covers(m) {
      ChainMeans(StagesOf(m.shards));
    }
    if IsSoundManifest(m) {
      SomeStage(StagesOf(m.shards), m.totalLayers);
      SharingIsChain(StagesOf(m.shards), 0, m.totalLayers - 1);
    }
  }

  lemma SomeStage(stages: seq<Stage>, total: int)
    requires ShareOut(stages, 0, total - 1) && total > 0
    ensures stages != []
  {
    assert IsOwned(stages, 0);
  }

  /** `ShardManifest.Validate` accepts exactly the manifests whose shards cover the model. */
  method ValidateManifest(m: ShardManifest) returns (ok: bool)
    ensures ok <==> Covers(m)
    ensures ok <==> IsSoundManifest(m)
  {
    hide Blank, IsChain, IsSoundManifest, ShareOut;
    ManifestMeans(m);
    if Blank(m.modelId) || Blank(m.runtime) || Blank(m.mode) || m.totalLayers <= 0 {
      return false;
    }
    if m.materialization.UnknownMaterialization? || |m.shards| == 0 {
      return false;
    }
    var stages: seq<Stage> := [];
    for i := 0 to |m.shards|
      invariant stages == StagesOf(m.shards)[..i]
      invariant forall k :: 0 <= k < i ==>
        && !Blank(m.shards[k].runtime)
        && !m.shards[k].materialization.UnknownMaterialization?
        && m.shards[k].stage.layerEnd < m.totalLayers
    {
      var shard := m.shards[i];
      if Blank(shard.runtime) || shard.materialization.UnknownMaterialization? {
        return false;
      }
      if shard.stage.layerEnd >= m.totalLayers {
        if Covers(m) {
          ChainEndsGrow(StagesOf(m.shards), i, |m.shards| - 1);
        }
        return false;
      }
      stages := stages + [shard.stage];
    }
    assert stages == StagesOf(m.shards);
    var chained := ValidateStageChain(stages);
    return chained && stages[0].layerStart == 0 && stages[|stages| - 1].layerEnd == m.totalLayers - 1;
  }
}
