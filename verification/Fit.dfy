/** Do the stages of a distributed plan fit on their workers? The workers are chosen so that they hold the model
    together; the layers are rounded only afterwards. */
module Fit {
  import opened Jobs
  import opened Selection
  import opened Split

  // ----- the exact condition -----

  /** The layers of stage `i` and the first of them, computed from the weights alone. */
  function LayersAt(weights: seq<nat>, total: nat, i: nat): int
    requires i < |weights|
    decreases i, 1
  {
    var left := total - StartAt(weights, total, i);
    if i == |weights| - 1 then left
    else ClampedShare(total, weights[i], Sum(weights), left, |weights| - 1 - i)
  }

  function StartAt(weights: seq<nat>, total: nat, i: nat): int
    requires i <= |weights|
    decreases i, 0
  {
    if i == 0 then 0 else StartAt(weights, total, i - 1) + LayersAt(weights, total, i - 1)
  }

  lemma {:induction false} SplitIsUnique(weights: seq<nat>, total: nat, starts: seq<int>, layers: seq<int>, i: nat)
    requires IsSplit(weights, total, starts, layers) && i < |weights|
    ensures starts[i] == StartAt(weights, total, i) && layers[i] == LayersAt(weights, total, i)
    decreases i
  {
    hide Sum, ClampedShare;
    if i > 0 {
      SplitIsUnique(weights, total, starts, layers, i - 1);
      assert starts[i - 1 + 1] == starts[i - 1] + layers[i - 1];
    }
  }

  /** A byte share, rounded up, stays within a whole number of bytes exactly when the exact share does. */
  lemma ShareFits(bytes: nat, layers: int, total: nat, room: nat)
    requires total > 0
    ensures ProportionalBytes(bytes, layers, total) <= room <==> bytes * layers <= room * total
  {
    hide ProportionalBytes;
    if layers <= 0 {
      NothingFits(bytes, layers, total, room);
    } else {
      var share := ProportionalBytes(bytes, layers, total);
      CeilingBounds(bytes, layers, total);
      if share <= room {
        MulLe(total, share, room);
      } else {
        MulLe(total, room + 1, share);
        assert total * (room + 1) == total * room + total;
      }
    }
  }

  lemma NothingFits(bytes: nat, layers: int, total: nat, room: nat)
    requires layers <= 0
    ensures ProportionalBytes(bytes, layers, total) <= room && bytes * layers <= room * total
  {
    MulLe(bytes, layers, 0);
  }

  predicate StageFits(stage: PlanStage) {
    stage.memoryBytes <= stage.allowedMemoryBytes && stage.diskBytes <= stage.allowedStorageBytes
  }

  /** The layers worker `i` would get weigh no more, in exact proportion, than it has to give. */
  predicate HasRoom(memory: nat, disk: nat, nodes: seq<Node>, total: nat, i: nat)
    requires i < |nodes| && forall k :: 0 <= k < |nodes| ==> IsCandidate(nodes[k])
  {
    var layers := LayersAt(NetMemory(nodes), total, i);
    memory * layers <= Net(nodes[i]) * total && disk * layers <= EffectiveStorage(nodes[i]) * total
  }

  /** Every stage of a plan fits its worker if and only if every worker has room for the layers it would get: a
      condition on the chosen workers alone. */
  lemma PlanFitsExactlyWhen(
    stages: seq<PlanStage>, nodes: seq<Node>, total: nat, memory: nat, disk: nat, starts: seq<int>, layers: seq<int>)
    requires total > 0 && forall i :: 0 <= i < |nodes| ==> IsCandidate(nodes[i])
    requires IsPlan(stages, nodes, total, memory, disk, starts, layers)
    ensures (forall i :: 0 <= i < |stages| ==> StageFits(stages[i]))
      <==> forall i :: 0 <= i < |nodes| ==> HasRoom(memory, disk, nodes, total, i)
  {
    hide Sum, ClampedShare, ProportionalBytes, StageFits, HasRoom, IsCandidate;
    forall i | 0 <= i < |nodes| ensures StageFits(stages[i]) <==> HasRoom(memory, disk, nodes, total, i) {
      SplitIsUnique(NetMemory(nodes), total, starts, layers, i);
      StageFitsWhen(stages[i], i, nodes, total, memory, disk, starts[i], layers[i]);
    }
  }

  lemma StageFitsWhen(
    stage: PlanStage, i: nat, nodes: seq<Node>, total: nat, memory: nat, disk: nat, start: int, layers: int)
    requires total > 0 && i < |nodes| && forall k :: 0 <= k < |nodes| ==> IsCandidate(nodes[k])
    requires stage == StageFor(i, nodes[i], start, layers, total, memory, disk)
    requires layers == LayersAt(NetMemory(nodes), total, i)
    ensures StageFits(stage) <==> HasRoom(memory, disk, nodes, total, i)
  {
    hide ProportionalBytes, LayersAt, NetMemory, EffectiveStorage;
    ShareFits(memory, layers, total, Net(nodes[i]));
    ShareFits(disk, layers, total, EffectiveStorage(nodes[i]));
  }

  // ----- how far a stage can miss -----

  /** The half layers by which rounding can inflate stage `i` of `n`: one of its own; the last absorbs the others'. */
  function Halves(n: nat, i: nat): nat
    requires i < n
  {
    if i == n - 1 then n - 1 else 1
  }

  /** Stages take too little only by rounding, until the later ones are down to one layer each. */
  lemma {:induction false} StartsKeepUp(weights: seq<nat>, total: nat, starts: seq<int>, layers: seq<int>, k: nat)
    requires IsSplit(weights, total, starts, layers) && 0 < |weights| <= total && Sum(weights) > 0 && k < |weights|
    ensures total - starts[k] == |weights| - k
      || 2 * Sum(weights) * starts[k] >= 2 * total * Sum(weights[..k]) - k * Sum(weights)
    decreases k
  {
    hide Sum, RoundedShare;
    if k == 0 {
      SumOfNone(weights);
    } else {
      var p := k - 1;
      StartsKeepUp(weights, total, starts, layers, p);
      assert starts[p + 1] == starts[p] + layers[p];
      SplitLeavesEnough(weights, total, starts, layers, p);
      if total - starts[k] != |weights| - k {
        SumStep(weights, p);
        RoundingError(total, weights[p], Sum(weights));
        MulLe(2 * Sum(weights), RoundedShare(total, weights[p], Sum(weights)), layers[p]);
        KeepUpStep(Sum(weights), total, starts[p], layers[p], Sum(weights[..p]), weights[p], p);
      }
    }
  }

  lemma KeepUpStep(whole: nat, total: nat, start: int, layers: int, weight: nat, w: nat, k: nat)
    requires 2 * whole * start >= 2 * total * weight - k * whole
    requires 2 * whole * layers >= 2 * total * w - whole
    ensures 2 * whole * (start + layers) >= 2 * total * (weight + w) - (k + 1) * whole
  {
    assert 2 * whole * (start + layers) == 2 * whole * start + 2 * whole * layers;
    assert 2 * total * (weight + w) == 2 * total * weight + 2 * total * w;
    assert (k + 1) * whole == k * whole + whole;
  }

  /** A stage with more than one layer exceeds its exact weighted share by at most its half layers, clamped or not. */
  lemma StageIsNearlyFair(weights: seq<nat>, total: nat, starts: seq<int>, layers: seq<int>, i: nat)
    requires IsSplit(weights, total, starts, layers) && 0 < |weights| <= total && Sum(weights) > 0 && i < |weights|
    ensures layers[i] == 1
      || 2 * Sum(weights) * layers[i] <= 2 * total * weights[i] + Halves(|weights|, i) * Sum(weights)
  {
    hide Sum, RoundedShare;
    var n, whole := |weights|, Sum(weights);
    SplitLeavesEnough(weights, total, starts, layers, i);
    if i < n - 1 {
      if layers[i] != 1 {
        RoundingError(total, weights[i], whole);
        MulLe(2 * whole, layers[i], RoundedShare(total, weights[i], whole));
      }
    } else {
      StartsKeepUp(weights, total, starts, layers, i);
      if layers[i] != 1 {
        SumStep(weights, i);
        assert weights[..i + 1] == weights;
        LastKeepsUp(whole, total, starts[i], layers[i], Sum(weights[..i]), weights[i], i);
      }
    }
  }

  lemma LastKeepsUp(whole: nat, total: nat, start: int, layers: int, weight: nat, w: nat, k: nat)
    requires 2 * whole * start >= 2 * total * weight - k * whole
    requires start + layers == total && weight + w == whole
    ensures 2 * whole * layers <= 2 * total * w + k * whole
  {
    assert 2 * whole * (start + layers) == 2 * whole * start + 2 * whole * layers;
    assert 2 * total * (weight + w) == 2 * total * weight + 2 * total * w;
    assert 2 * whole * total == 2 * total * whole;
  }

  /** When the workers hold the model together, a stage of one layer asks for one layer's bytes, and any other exceeds
      its worker's net memory by at most the bytes of half a layer, or of half a layer per other stage for the last
      one, rounded up. Scaled by 2 * total. */
  lemma StageNearlyFits(memory: nat, weights: seq<nat>, total: nat, starts: seq<int>, layers: seq<int>, i: nat)
    requires IsSplit(weights, total, starts, layers) && 0 < |weights| <= total && i < |weights|
    requires memory <= Sum(weights)
    ensures var share := ProportionalBytes(memory, layers[i], total);
      if layers[i] == 1 then total * share < memory + total
      else 2 * total * share <= 2 * total * weights[i] + Halves(|weights|, i) * memory + 2 * total
  {
    hide Sum, ProportionalBytes, RoundedShare, ClampedShare, Halves;
    var l := layers[i];
    SplitLeavesEnough(weights, total, starts, layers, i);
    CeilingBounds(memory, l, total);
    if l != 1 {
      WeighsLittleMore(memory, weights, total, starts, layers, i);
      RoundedUp(memory, l, total, ProportionalBytes(memory, l, total), weights[i], Halves(|weights|, i));
    }
  }

  lemma WeighsLittleMore(memory: nat, weights: seq<nat>, total: nat, starts: seq<int>, layers: seq<int>, i: nat)
    requires IsSplit(weights, total, starts, layers) && 0 < |weights| <= total && i < |weights|
    requires memory <= Sum(weights) && layers[i] > 1
    ensures 2 * memory * layers[i] <= 2 * total * weights[i] + Halves(|weights|, i) * memory
  {
    hide Sum, ClampedShare, RoundedShare, Halves;
    var l, w, c, whole := layers[i], weights[i], Halves(|weights|, i), Sum(weights);
    if whole > 0 {
      StageIsNearlyFair(weights, total, starts, layers, i);
      NearlyFitsArithmetic(memory, whole, total, w, l, c);
    }
  }

  lemma RoundedUp(memory: nat, l: nat, total: nat, share: nat, w: nat, c: nat)
    requires total * share <= memory * l + (total - 1)
    requires 2 * memory * l <= 2 * total * w + c * memory
    ensures 2 * total * share <= 2 * total * w + c * memory + 2 * total
  {
  }

  lemma NearlyFitsArithmetic(memory: nat, whole: nat, total: nat, w: nat, l: nat, c: nat)
    requires 0 < whole && memory <= whole && 2 * whole * l <= 2 * total * w + c * whole
    ensures 2 * memory * l <= 2 * total * w + c * memory
  {
    if memory < whole {
      // memory * (2 * whole * l) <= memory * (2 * total * w + c * whole), divided by whole
      calc <= {
        whole * (2 * memory * l);
        { assert whole * (2 * memory * l) == memory * (2 * whole * l); }
        memory * (2 * whole * l);
        { MulLe(memory, 2 * whole * l, 2 * total * w + c * whole); }
        memory * (2 * total * w + c * whole);
        { Distributes(memory, 2 * total * w, c, whole); }
        memory * (2 * total * w) + whole * (c * memory);
        { MulLe(2 * total * w, memory, whole); }
        whole * (2 * total * w) + whole * (c * memory);
        { assert whole * (2 * total * w + c * memory) == whole * (2 * total * w) + whole * (c * memory); }
        whole * (2 * total * w + c * memory);
      }
      DivLe(whole, 2 * memory * l, 2 * total * w + c * memory);
    }
  }

  lemma Distributes(memory: nat, a: nat, c: nat, whole: nat)
    ensures memory * (a + c * whole) == memory * a + whole * (c * memory)
  {
    assert memory * (a + c * whole) == memory * a + memory * (c * whole);
    assert memory * (c * whole) == whole * (c * memory);
  }

  // ----- it does miss -----

  /** Two workers with 33 and 31 bytes of net memory can hold a 64-byte model of 32 layers together, but the split
      gives the first one 17 layers, 34 bytes: one more than it has. */
  lemma PlanCanOvercommit()
    ensures var weights: seq<nat>, layers: seq<int>, starts: seq<int> := [33, 31], [17, 15], [0, 17, 32];
      && IsSplit(weights, 32, starts, layers) && Sum(weights) == 64
      && ProportionalBytes(64, layers[0], 32) > weights[0]
  {
    var weights: seq<nat> := [33, 31];
    SumStep(weights, 0);
    SumStep(weights, 1);
    SumOfNone(weights);
    assert weights[..1 + 1] == weights;
    assert RoundedShare(32, 33, 64) == 17;
  }

  /** The last stage absorbs what the others were rounded down by: here 12 layers, 1200 bytes, for a worker with 1102
      in a plan whose workers hold the model exactly. */
  lemma LastStageCanOvercommit()
    ensures
      var weights: seq<nat>, layers: seq<int>, starts: seq<int> := [1049, 1049, 1102], [10, 10, 12], [0, 10, 20, 32];
      && IsSplit(weights, 32, starts, layers) && Sum(weights) == 3200
      && ProportionalBytes(3200, layers[2], 32) == 1200 > weights[2]
  {
    var weights: seq<nat> := [1049, 1049, 1102];
    SumStep(weights, 0);
    SumStep(weights, 1);
    SumStep(weights, 2);
    SumOfNone(weights);
    assert weights[..2 + 1] == weights;
    assert RoundedShare(32, 1049, 3200) == 10;
  }

  /** Layers follow memory, so disk can miss by more: two equal workers get one layer each, 5 bytes of disk, although
      all but one of the 10 bytes there are sit on the first. */
  lemma DiskCanOvercommit()
    ensures
      var weights: seq<nat>, room: seq<nat>, layers: seq<int>, starts: seq<int> := [1, 1], [9, 1], [1, 1], [0, 1, 2];
      && IsSplit(weights, 2, starts, layers) && Sum(room) == 10
      && ProportionalBytes(10, layers[1], 2) == 5 > room[1]
  {
    var weights: seq<nat>, room: seq<nat> := [1, 1], [9, 1];
    SumStep(weights, 0);
    SumStep(weights, 1);
    SumOfNone(weights);
    assert weights[..1 + 1] == weights;
    SumStep(room, 0);
    SumStep(room, 1);
    SumOfNone(room);
    assert room[..1 + 1] == room;
    assert RoundedShare(2, 1, 2) == 1;
  }
}
