/** How the distributed planner cuts a model's layers among the chosen workers, in exact arithmetic. */
module Split {
  import opened Jobs
  import opened Selection

  datatype PlanStage = PlanStage(
    index: nat,
    nodeId: string,
    nodeName: string,
    layerStart: int,
    layerEnd: int,
    layers: int,
    memoryBytes: nat,
    diskBytes: nat,
    allowedMemoryBytes: nat,
    allowedStorageBytes: nat)

  /** total * part / whole, rounded to the nearest integer, halves up. */
  function RoundedShare(total: nat, part: nat, whole: nat): nat
    requires whole > 0
  {
    (2 * total * part + whole) / (2 * whole)
  }

  /** total * part / whole, rounded up. */
  function ProportionalBytes(total: nat, part: int, whole: int): nat {
    if whole <= 0 || part <= 0 || total == 0 then 0 else (total * part + whole - 1) / whole
  }

  function TotalLayers(totalLayers: int): nat {
    if totalLayers <= 0 then 1 else totalLayers
  }

  /** The layers that a stage other than the last takes of the `left` layers, `after` stages still to come:
      its weighted share, but at least one, and leaving one for each stage after it. */
  function ClampedShare(total: nat, weight: nat, totalWeight: nat, left: int, after: nat): int {
    if totalWeight == 0 then 1
    else
      var share := RoundedShare(total, weight, totalWeight);
      var atLeastOne := if share < 1 then 1 else share;
      if atLeastOne > left - after then left - after else atLeastOne
  }

  /** The layers each worker takes, in order, out of `total`. */
  ghost predicate IsSplit(weights: seq<nat>, total: nat, starts: seq<int>, layers: seq<int>) {
    && |layers| == |weights| && |starts| == |weights| + 1
    && starts[0] == 0
    && (forall i :: 0 <= i < |weights| ==> starts[i + 1] == starts[i] + layers[i])
    && (forall i :: 0 <= i < |weights| - 1 ==>
          layers[i] == ClampedShare(total, weights[i], Sum(weights), total - starts[i], |weights| - 1 - i))
    && (weights != [] ==> layers[|weights| - 1] == total - starts[|weights| - 1])
  }

  /** A plan stage says which layers its worker holds and what they weigh. */
  function StageFor(index: nat, node: Node, start: int, layers: int, total: nat, memory: nat, disk: nat): PlanStage {
    PlanStage(index, node.id, DisplayName(node), start, start + layers - 1, layers,
      ProportionalBytes(memory, layers, total) + STAGE_OVERHEAD, ProportionalBytes(disk, layers, total),
      node.resources.memoryAllowed, EffectiveStorage(node))
  }

  ghost predicate IsPlan(
    stages: seq<PlanStage>, nodes: seq<Node>, total: nat, memory: nat, disk: nat, starts: seq<int>, layers: seq<int>)
    requires forall i :: 0 <= i < |nodes| ==> IsCandidate(nodes[i])
  {
    && IsSplit(NetMemory(nodes), total, starts, layers)
    && |stages| == |nodes|
    && forall i :: 0 <= i < |nodes| ==> stages[i] == StageFor(i, nodes[i], starts[i], layers[i], total, memory, disk)
  }

  /** The stages, in order, hold the layers 0 to total - 1 without gap or overlap. */
  predicate Tiles(stages: seq<PlanStage>, total: nat) {
    && (forall i :: 0 <= i < |stages| ==> stages[i].layers == stages[i].layerEnd - stages[i].layerStart + 1)
    && (forall i, k :: 0 <= i < k == i + 1 < |stages| ==> stages[k].layerStart == stages[i].layerEnd + 1)
    && (stages != [] ==> stages[0].layerStart == 0 && stages[|stages| - 1].layerEnd == total - 1)
  }

  lemma PlanTiles(
    stages: seq<PlanStage>, nodes: seq<Node>, total: nat, memory: nat, disk: nat, starts: seq<int>, layers: seq<int>)
    requires forall i :: 0 <= i < |nodes| ==> IsCandidate(nodes[i])
    requires IsPlan(stages, nodes, total, memory, disk, starts, layers)
    ensures Tiles(stages, total)
    ensures forall i :: 0 <= i < |nodes| ==> stages[i].index == i && stages[i].nodeId == nodes[i].id
  {
    hide Sum, ClampedShare, ProportionalBytes, IsCandidate;
    forall i, k | 0 <= i < k == i + 1 < |stages| ensures stages[k].layerStart == stages[i].layerEnd + 1 {
      assert starts[i + 1] == starts[i] + layers[i];
    }
  }

  /** The least number of whole bytes that holds `layers` of the model's `total` layers. */
  predicate IsLeastShare(bytes: nat, layers: int, total: nat, share: nat) {
    share * total >= bytes * layers && (share > 0 ==> (share - 1) * total < bytes * layers)
  }

  /** The stage names its worker and what that allows, and asks for its share of the model and 512 MiB of its own. */
  predicate StageAsks(stage: PlanStage, node: Node, total: nat, memory: nat, disk: nat) {
    && stage.nodeId == node.id && stage.nodeName == NameShown(node)
    && stage.memoryBytes >= 536_870_912
    && IsLeastShare(memory, stage.layers, total, stage.memoryBytes - 536_870_912)
    && IsLeastShare(disk, stage.layers, total, stage.diskBytes)
    && stage.allowedMemoryBytes == node.resources.memoryAllowed && stage.allowedStorageBytes == DiskToGive(node)
  }

  lemma ShareIsLeast(bytes: nat, layers: int, total: nat)
    requires total > 0
    ensures layers > 0 ==> IsLeastShare(bytes, layers, total, ProportionalBytes(bytes, layers, total))
    ensures layers <= 0 ==> ProportionalBytes(bytes, layers, total) == 0
  {
    hide ProportionalBytes;
    if layers > 0 {
      var share := ProportionalBytes(bytes, layers, total);
      CeilingBounds(bytes, layers, total);
      assert total * share == share * total;
      if share > 0 {
        assert (share - 1) * total == share * total - total;
      }
    } else {
      NoLayersNoBytes(bytes, layers, total);
    }
  }

  lemma NoLayersNoBytes(bytes: nat, layers: int, total: nat)
    requires layers <= 0
    ensures ProportionalBytes(bytes, layers, total) == 0
  {
  }

  lemma StageMeans(index: nat, node: Node, start: int, layers: int, total: nat, memory: nat, disk: nat)
    requires total > 0 && layers > 0
    ensures StageAsks(StageFor(index, node, start, layers, total, memory, disk), node, total, memory, disk)
  {
    hide ProportionalBytes, IsLeastShare;
    NameMeans(node);
    ShareIsLeast(memory, layers, total);
    ShareIsLeast(disk, layers, total);
  }

  lemma PlanAsks(
    stages: seq<PlanStage>, nodes: seq<Node>, total: nat, memory: nat, disk: nat, starts: seq<int>, layers: seq<int>)
    requires total > 0 && forall i :: 0 <= i < |nodes| ==> IsCandidate(nodes[i])
    requires IsPlan(stages, nodes, total, memory, disk, starts, layers)
    ensures forall i :: 0 <= i < |nodes| && layers[i] >= 1 ==> StageAsks(stages[i], nodes[i], total, memory, disk)
  {
    hide StageFor, StageAsks, IsCandidate, Sum, ClampedShare;
    forall i | 0 <= i < |nodes| && layers[i] >= 1 ensures StageAsks(stages[i], nodes[i], total, memory, disk) {
      StageMeans(i, nodes[i], starts[i], layers[i], total, memory, disk);
    }
  }

  method BuildStages(memory: nat, disk: nat, nodes: seq<Node>, totalLayers: int)
    returns (stages: seq<PlanStage>, ghost starts: seq<int>, ghost layerCounts: seq<int>)
    requires forall i :: 0 <= i < |nodes| ==> IsCandidate(nodes[i])
    ensures IsPlan(stages, nodes, TotalLayers(totalLayers), memory, disk, starts, layerCounts)
    ensures |stages| == |nodes| && Tiles(stages, TotalLayers(totalLayers))
    ensures forall i :: 0 <= i < |nodes| ==> stages[i].index == i && stages[i].nodeId == nodes[i].id
    ensures forall i :: 0 <= i < |nodes| && layerCounts[i] >= 1 ==>
      StageAsks(stages[i], nodes[i], if totalLayers <= 0 then 1 else totalLayers, memory, disk)
  {
    hide StageAsks;
    hide Sum, ClampedShare, StageFor, IsCandidate, Tiles, NetMemory, Storage, ProportionalBytes, RoundedShare;
    var total := TotalLayers(totalLayers);
    var weights, totalWeight := Weigh(nodes);
    stages, starts, layerCounts := [], [0], [];
    var nextLayer := 0;
    for index := 0 to |nodes|
      invariant |stages| == |layerCounts| == index && |starts| == index + 1
      invariant starts[0] == 0 && starts[index] == nextLayer
      invariant forall i :: 0 <= i < index ==> starts[i + 1] == starts[i] + layerCounts[i]
      invariant forall i :: 0 <= i < index && i < |nodes| - 1 ==>
        layerCounts[i] == ClampedShare(total, weights[i], totalWeight, total - starts[i], |nodes| - 1 - i)
      invariant index == |nodes| > 0 ==> layerCounts[index - 1] == total - starts[index - 1]
      invariant forall i :: 0 <= i < index ==>
        stages[i] == StageFor(i, nodes[i], starts[i], layerCounts[i], total, memory, disk)
    {
      var layers := 1;
      if index == |nodes| - 1 {
        layers := total - nextLayer;
      } else {
        layers := StageLayers(total, weights[index], totalWeight, nextLayer, |nodes|, index);
      }
      stages := stages + [StageFor(index, nodes[index], nextLayer, layers, total, memory, disk)];
      nextLayer := nextLayer + layers;
      starts, layerCounts := starts + [nextLayer], layerCounts + [layers];
    }
    PlanTiles(stages, nodes, total, memory, disk, starts, layerCounts);
    PlanAsks(stages, nodes, total, memory, disk, starts, layerCounts);
  }

  /** The weights are the workers' net memory. */
  method Weigh(nodes: seq<Node>) returns (weights: seq<nat>, totalWeight: nat)
    requires forall i :: 0 <= i < |nodes| ==> IsCandidate(nodes[i])
    ensures weights == NetMemory(nodes) && totalWeight == Sum(weights)
  {
    hide Sum, IsCandidate;
    weights, totalWeight := [], 0;
    ghost var nets := NetMemory(nodes);
    SumOfNone(nets);
    for i := 0 to |nodes|
      invariant weights == nets[..i] && totalWeight == Sum(nets[..i])
    {
      SumStep(nets, i);
      weights := weights + [Net(nodes[i])];
      totalWeight := totalWeight + Net(nodes[i]);
    }
    assert nets[..|nodes|] == nets;
  }

  /** Taking `layers` leaves a layer for the stage itself and for each of the `after` stages to come. */
  predicate Leaves(layers: int, left: int, after: nat) {
    1 <= layers <= left - after
  }

  /** How far a number of layers is from the exact weighted share, scaled by 2 * totalWeight. */
  function Distance(layers: int, total: nat, weight: nat, totalWeight: nat): nat {
    Abs(2 * totalWeight * layers - 2 * total * weight)
  }

  /** The clamped share is the best choice there is: of the layer counts that leave enough for the later stages, none
      is nearer to the exact weighted share. */
  lemma ClampedShareIsNearest(total: nat, weight: nat, totalWeight: nat, left: int, after: nat, other: int)
    requires totalWeight > 0 && Leaves(other, left, after)
    ensures var layers := ClampedShare(total, weight, totalWeight, left, after);
      && Leaves(layers, left, after)
      && Distance(layers, total, weight, totalWeight) <= Distance(other, total, weight, totalWeight)
  {
    hide RoundedShare;
    var share := RoundedShare(total, weight, totalWeight);
    var layers := ClampedShare(total, weight, totalWeight, left, after);
    RoundingError(total, weight, totalWeight);
    NearestArithmetic(2 * totalWeight, 2 * total * weight, share, layers, other);
  }

  /** `share` is within half a step of the target, and `layers` is between it and `other`. */
  lemma NearestArithmetic(step: nat, target: nat, share: int, layers: int, other: int)
    requires Abs(step * share - target) <= step / 2
    requires share <= layers <= other || other <= layers <= share
    ensures Abs(step * layers - target) <= Abs(step * other - target)
  {
    if layers == other {
    } else if other > layers {
      MulLe(step, share, layers);
      MulLe(step, layers + 1, other);
      assert step * (layers + 1) == step * layers + step;
      assert step * layers >= target - step / 2;
    } else {
      MulLe(step, layers, share);
      MulLe(step, other, layers - 1);
      assert step * (layers - 1) == step * layers - step;
      assert step * layers <= target + step / 2;
    }
  }

  /** The rounding and the two clamps, step by step: of the layer counts that leave one for each later stage, the one
      nearest to the exact weighted share. */
  method StageLayers(total: nat, weight: nat, totalWeight: nat, nextLayer: int, count: nat, index: nat)
    returns (layers: int)
    requires index < count
    ensures layers == ClampedShare(total, weight, totalWeight, total - nextLayer, count - 1 - index)
    ensures total - nextLayer >= count - index ==> Leaves(layers, total - nextLayer, count - 1 - index)
    ensures totalWeight > 0 ==> forall other :: Leaves(other, total - nextLayer, count - 1 - index) ==>
      Distance(layers, total, weight, totalWeight) <= Distance(other, total, weight, totalWeight)
  {
    hide Distance, RoundedShare;
    layers := 1;
    if totalWeight > 0 {
      layers := RoundedShare(total, weight, totalWeight);
      if layers < 1 {
        layers := 1;
      }
      var maxAllowed := total - nextLayer - (count - index - 1);
      if layers > maxAllowed {
        layers := maxAllowed;
      }
      forall other | Leaves(other, total - nextLayer, count - 1 - index)
        ensures Distance(layers, total, weight, totalWeight) <= Distance(other, total, weight, totalWeight)
      {
        ClampedShareIsNearest(total, weight, totalWeight, total - nextLayer, count - 1 - index, other);
      }
    }
  }

  // ----- the stages tile the layers -----

  /** While a stage still has enough layers for itself and those after it, it takes at least one and leaves enough. */
  lemma {:induction false} SplitLeavesEnough(weights: seq<nat>, total: nat, starts: seq<int>, layers: seq<int>, i: nat)
    requires IsSplit(weights, total, starts, layers) && 0 < |weights| <= total && i < |weights|
    ensures total - starts[i] >= |weights| - i
    ensures layers[i] >= 1
    decreases i
  {
    hide Sum, RoundedShare;
    if i > 0 {
      SplitLeavesEnough(weights, total, starts, layers, i - 1);
    }
  }

  /** The layers always add up to the model's, whatever the weights. */
  lemma SplitIsExact(weights: seq<nat>, total: nat, starts: seq<int>, layers: seq<int>)
    requires IsSplit(weights, total, starts, layers) && weights != []
    ensures starts[|weights|] == total
  {
    hide Sum, ClampedShare;
    assert starts[|weights| - 1 + 1] == starts[|weights| - 1] + layers[|weights| - 1];
  }

  lemma {:induction false} StartsCount(starts: seq<int>, layers: seq<int>, i: nat)
    requires |starts| == |layers| + 1 && starts[0] == 0 && i < |starts|
    requires forall k :: 0 <= k < |layers| ==> starts[k + 1] == starts[k] + layers[k] && layers[k] >= 1
    ensures starts[i] >= i
    decreases i
  {
    if i > 0 {
      StartsCount(starts, layers, i - 1);
    }
  }

  /** Every stage gets a layer exactly when there are no more stages than layers. */
  lemma EveryStageHasALayer(weights: seq<nat>, total: nat, starts: seq<int>, layers: seq<int>)
    requires IsSplit(weights, total, starts, layers) && weights != []
    ensures (forall i :: 0 <= i < |weights| ==> layers[i] >= 1) <==> |weights| <= total
  {
    hide Sum, ClampedShare;
    if |weights| <= total {
      forall i | 0 <= i < |weights| ensures layers[i] >= 1 {
        SplitLeavesEnough(weights, total, starts, layers, i);
      }
    }
    if forall i :: 0 <= i < |weights| ==> layers[i] >= 1 {
      StartsCount(starts, layers, |weights|);
      SplitIsExact(weights, total, starts, layers);
    }
  }

  /** Three workers and two layers: the first stage gets none. */
  lemma StageCanBeEmpty()
    ensures IsSplit([1, 1, 1], 2, [0, 0, 1, 2], [0, 1, 1])
  {
    var weights: seq<nat> := [1, 1, 1];
    SumStep(weights, 0);
    SumStep(weights, 1);
    SumStep(weights, 2);
    SumOfNone(weights);
    assert weights[..2 + 1] == weights;
    assert RoundedShare(2, 1, 3) == 1;
  }

  // ----- how far rounding goes -----

  /** Neither clamp changed the stage's rounded share. */
  predicate Unclamped(weights: seq<nat>, total: nat, layers: seq<int>, i: nat)
    requires i < |weights| == |layers|
  {
    Sum(weights) > 0 && layers[i] == RoundedShare(total, weights[i], Sum(weights))
  }

  function Abs(x: int): nat {
    if x < 0 then -x else x
  }

  /** Rounding moves a share by at most one half. */
  lemma RoundingError(total: nat, part: nat, whole: nat)
    requires whole > 0
    ensures Abs(2 * whole * RoundedShare(total, part, whole) - 2 * total * part) <= whole
  {
    var numerator, share := 2 * total * part + whole, RoundedShare(total, part, whole);
    DivisionBounds(numerator, 2 * whole);
    assert 2 * whole * share <= numerator < 2 * whole * share + 2 * whole;
  }

  lemma DivisionBounds(a: nat, b: nat)
    requires b > 0
    ensures b * (a / b) <= a < b * (a / b) + b
  {
  }

  /** Without clamping, every stage but the last holds its exact weighted share of the layers to within half a
      layer; the last one absorbs the rounding of the others, half a layer each. Scaled by 2 * totalWeight. */
  lemma SharesAreFair(weights: seq<nat>, total: nat, starts: seq<int>, layers: seq<int>)
    requires IsSplit(weights, total, starts, layers) && weights != []
    requires Sum(weights) > 0 && forall i :: 0 <= i < |weights| - 1 ==> Unclamped(weights, total, layers, i)
    ensures forall i :: 0 <= i < |weights| - 1 ==>
      Abs(2 * Sum(weights) * layers[i] - 2 * total * weights[i]) <= Sum(weights)
    ensures Abs(2 * Sum(weights) * layers[|weights| - 1] - 2 * total * weights[|weights| - 1])
         <= (|weights| - 1) * Sum(weights)
  {
    hide Sum, ClampedShare, RoundedShare;
    var n, whole := |weights|, Sum(weights);
    forall i | 0 <= i < n - 1 ensures Abs(2 * whole * layers[i] - 2 * total * weights[i]) <= whole {
      assert Unclamped(weights, total, layers, i);
      RoundingError(total, weights[i], whole);
    }
    ErrorsAddUp(weights, total, starts, layers, whole, n - 1);
    SplitIsExact(weights, total, starts, layers);
    SumStep(weights, n - 1);
    assert weights[..n - 1 + 1] == weights;
    LastError(whole, total, starts[n - 1], layers[n - 1], Sum(weights[..n - 1]), weights[n - 1], n - 1);
  }

  /** After `k` stages the accumulated rounding error is at most `k` halves. */
  lemma {:induction false} ErrorsAddUp(
      weights: seq<nat>, total: nat, starts: seq<int>, layers: seq<int>, whole: nat, k: nat)
    requires k <= |weights| == |layers| && |starts| == |weights| + 1 && starts[0] == 0
    requires forall i :: 0 <= i < |weights| ==> starts[i + 1] == starts[i] + layers[i]
    requires forall i :: 0 <= i < k ==> Abs(2 * whole * layers[i] - 2 * total * weights[i]) <= whole
    ensures Abs(2 * whole * starts[k] - 2 * total * Sum(weights[..k])) <= k * whole
    decreases k
  {
    hide Sum;
    if k == 0 {
      SumOfNone(weights);
    } else {
      ErrorsAddUp(weights, total, starts, layers, whole, k - 1);
      SumStep(weights, k - 1);
      ErrorStep(whole, total, starts[k - 1], layers[k - 1], Sum(weights[..k - 1]), weights[k - 1], k - 1);
      assert starts[k - 1 + 1] == starts[k - 1] + layers[k - 1];
    }
  }

  lemma ErrorStep(whole: nat, total: nat, start: int, layers: int, weight: nat, w: nat, k: nat)
    requires Abs(2 * whole * start - 2 * total * weight) <= k * whole
    requires Abs(2 * whole * layers - 2 * total * w) <= whole
    ensures Abs(2 * whole * (start + layers) - 2 * total * (weight + w)) <= (k + 1) * whole
  {
    assert 2 * whole * (start + layers) == 2 * whole * start + 2 * whole * layers;
    assert 2 * total * (weight + w) == 2 * total * weight + 2 * total * w;
    assert (k + 1) * whole == k * whole + whole;
  }

  lemma LastError(whole: nat, total: nat, start: int, layers: int, weight: nat, w: nat, k: nat)
    requires Abs(2 * whole * start - 2 * total * weight) <= k * whole
    requires start + layers == total && weight + w == whole
    ensures Abs(2 * whole * layers - 2 * total * w) <= k * whole
  {
    assert 2 * whole * (start + layers) == 2 * whole * start + 2 * whole * layers;
    assert 2 * total * (weight + w) == 2 * total * weight + 2 * total * w;
    assert 2 * whole * total == 2 * total * whole;
  }

  // ----- bytes -----

  /** A byte share is the exact proportion rounded up. */
  lemma CeilingBounds(total: nat, part: nat, whole: nat)
    requires whole > 0 && part > 0
    ensures total * part <= whole * ProportionalBytes(total, part, whole) <= total * part + (whole - 1)
  {
    if total > 0 {
      DivisionBounds(total * part + whole - 1, whole);
    }
  }

  function Shares(bytes: nat, layers: seq<int>, total: nat): (xs: seq<nat>)
    ensures |xs| == |layers| && forall i :: 0 <= i < |layers| ==> xs[i] == ProportionalBytes(bytes, layers[i], total)
  {
    seq(|layers|, i requires 0 <= i < |layers| => ProportionalBytes(bytes, layers[i], total))
  }

  lemma {:induction false} SharesAddUp(bytes: nat, total: nat, starts: seq<int>, layers: seq<int>, k: nat)
    requires total > 0 && k <= |layers| && |starts| == |layers| + 1 && starts[0] == 0
    requires forall i :: 0 <= i < |layers| ==> starts[i + 1] == starts[i] + layers[i] && layers[i] >= 1
    ensures bytes * starts[k] <= total * Sum(Shares(bytes, layers, total)[..k]) <= bytes * starts[k] + k * (total - 1)
    decreases k
  {
    hide Sum, ProportionalBytes;
    var xs := Shares(bytes, layers, total);
    if k == 0 {
      SumOfNone(xs);
    } else {
      SharesAddUp(bytes, total, starts, layers, k - 1);
      SumStep(xs, k - 1);
      CeilingBounds(bytes, layers[k - 1], total);
      assert starts[k - 1 + 1] == starts[k - 1] + layers[k - 1];
      ShareStep(bytes, total, starts[k - 1], layers[k - 1], Sum(xs[..k - 1]), xs[k - 1], k - 1);
    }
  }

  lemma ShareStep(bytes: nat, total: nat, start: int, layers: int, sum: nat, x: nat, k: nat)
    requires bytes * start <= total * sum <= bytes * start + k * (total - 1)
    requires bytes * layers <= total * x <= bytes * layers + (total - 1)
    ensures bytes * (start + layers) <= total * (sum + x) <= bytes * (start + layers) + (k + 1) * (total - 1)
  {
    assert bytes * (start + layers) == bytes * start + bytes * layers;
    assert total * (sum + x) == total * sum + total * x;
    assert (k + 1) * (total - 1) == k * (total - 1) + (total - 1);
  }

  /** The stages' byte shares cover the model and waste less than one byte per stage. */
  lemma SharesCoverModel(bytes: nat, weights: seq<nat>, total: nat, starts: seq<int>, layers: seq<int>)
    requires IsSplit(weights, total, starts, layers) && 0 < |weights| <= total
    ensures bytes <= Sum(Shares(bytes, layers, total)) < bytes + |weights|
  {
    hide Sum, ClampedShare, ProportionalBytes;
    EveryStageHasALayer(weights, total, starts, layers);
    SharesAddUp(bytes, total, starts, layers, |weights|);
    SplitIsExact(weights, total, starts, layers);
    var xs := Shares(bytes, layers, total);
    assert xs[..|weights|] == xs;
    Cancel(bytes, total, Sum(xs), |weights|);
  }

  lemma Cancel(bytes: nat, total: nat, sum: nat, n: nat)
    requires total > 0 && n > 0 && bytes * total <= total * sum <= bytes * total + n * (total - 1)
    ensures bytes <= sum < bytes + n
  {
    DivLe(total, bytes, sum);
    assert n * (total - 1) == total * n - n && total * (bytes + n) == total * bytes + total * n;
    if sum >= bytes + n {
      MulLe(total, bytes + n, sum);
    }
  }

  lemma MulLe(k: nat, a: int, b: int)
    requires a <= b
    ensures k * a <= k * b
  {
  }

  lemma DivLe(k: nat, a: int, b: int)
    requires k > 0 && k * a <= k * b
    ensures a <= b
  {
    assert k * (b + 1) == k * b + k;
    if a > b {
      MulLe(k, b + 1, a);
    }
  }
}
