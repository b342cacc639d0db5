/** The catalog's placement planner: on one worker if some worker can take the model, otherwise in shards over
    several. */
module ShardPlan {
  import opened Text
  import opened Selection

  datatype Capability = Capability(
    nodeId: string,
    name: string,
    capable: bool,
    installed: bool,
    memory: nat,
    storage: nat,
    freeStorage: nat,
    activeJobs: int,
    activeJobId: string,
    jobSlots: int)

  datatype Shard = Shard(nodeId: string, name: string, memoryBytes: nat, diskBytes: nat, allowedMemory: nat,
    allowedStorage: nat)

  datatype Plan =
    | SingleWorker(candidates: seq<Capability>)
    | Sharded(shards: seq<Shard>)
    | Blocked(aggregateMemory: nat, aggregateDisk: nat)

  function Effective(c: Capability): nat {
    if 0 < c.freeStorage < c.storage then c.freeStorage else c.storage
  }

  /** A worker that can take a shard now: idle enough, without the model, with memory and storage to give. */
  predicate Usable(c: Capability) {
    && !c.installed && c.activeJobId == ""
    && !(c.jobSlots > 0 && c.activeJobs >= c.jobSlots)
    && c.memory != 0 && Effective(c) != 0
  }

  /** The usable workers, each with its storage cut to what is effectively free. */
  function UsableOf(caps: seq<Capability>): (out: seq<Capability>)
    ensures forall c :: c in out ==> c.memory > 0 && c.storage > 0
  {
    if caps == [] then []
    else
      var rest, c := UsableOf(caps[..|caps| - 1]), caps[|caps| - 1];
      if Usable(c) then rest + [c.(storage := Effective(c))] else rest
  }

  /** More memory first, then more storage, then the smaller name. */
  predicate ShardsBefore(a: Capability, b: Capability) {
    if a.memory != b.memory then a.memory > b.memory
    else if a.storage != b.storage then a.storage > b.storage
    else StringLess(a.name, b.name)
  }

  ghost predicate IsShardOrder(usable: seq<Capability>, sorted: seq<Capability>) {
    && multiset(sorted) == multiset(usable)
    && forall i, k :: 0 <= i < k < |sorted| ==> !ShardsBefore(sorted[k], sorted[i])
  }

  function Memory(caps: seq<Capability>): (xs: seq<nat>)
    ensures |xs| == |caps| && forall i :: 0 <= i < |caps| ==> xs[i] == caps[i].memory
  {
    seq(|caps|, i requires 0 <= i < |caps| => caps[i].memory)
  }

  function Disk(caps: seq<Capability>): (xs: seq<nat>)
    ensures |xs| == |caps| && forall i :: 0 <= i < |caps| ==> xs[i] == caps[i].storage
  {
    seq(|caps|, i requires 0 <= i < |caps| => caps[i].storage)
  }

  // ----- cutting the model into shards -----

  function Min(a: nat, b: nat): nat {
    if a < b then a else b
  }

  /** What is left to place after the first workers took all they could. */
  function Remaining(need: nat, allowed: seq<nat>): nat {
    if allowed == [] then need
    else
      var left := Remaining(need, allowed[..|allowed| - 1]);
      left - Min(allowed[|allowed| - 1], left)
  }

  lemma {:induction false} RemainingIsShortfall(need: nat, allowed: seq<nat>)
    ensures Remaining(need, allowed) == if Sum(allowed) >= need then 0 else need - Sum(allowed)
  {
    if allowed != [] {
      RemainingIsShortfall(need, allowed[..|allowed| - 1]);
    }
  }

  function MemoryOf(shards: seq<Shard>): (xs: seq<nat>)
    ensures |xs| == |shards| && forall i :: 0 <= i < |shards| ==> xs[i] == shards[i].memoryBytes
  {
    seq(|shards|, i requires 0 <= i < |shards| => shards[i].memoryBytes)
  }

  function DiskOf(shards: seq<Shard>): (xs: seq<nat>)
    ensures |xs| == |shards| && forall i :: 0 <= i < |shards| ==> xs[i] == shards[i].diskBytes
  {
    seq(|shards|, i requires 0 <= i < |shards| => shards[i].diskBytes)
  }

  /** The shard is placed on worker `c` and records its allowance. */
  predicate ShardsOn(shard: Shard, c: Capability) {
    && shard.nodeId == c.nodeId && shard.name == c.name
    && shard.allowedMemory == c.memory && shard.allowedStorage == c.storage
  }

  /** Fills the workers in order and gives the last one the rest. */
  method BuildShards(needMemory: nat, needDisk: nat, selected: seq<Capability>) returns (shards: seq<Shard>)
    requires selected != []
    ensures |shards| == |selected|
    ensures forall i :: 0 <= i < |shards| ==> ShardsOn(shards[i], selected[i])
    ensures Sum(MemoryOf(shards)) == needMemory && Sum(DiskOf(shards)) == needDisk
    ensures forall i :: 0 <= i < |shards| - 1 ==>
      shards[i].memoryBytes <= selected[i].memory && shards[i].diskBytes <= selected[i].storage
    ensures shards[|shards| - 1].memoryBytes == Remaining(needMemory, Memory(selected)[..|selected| - 1])
    ensures shards[|shards| - 1].diskBytes == Remaining(needDisk, Disk(selected)[..|selected| - 1])
  {
    hide Sum;
    ghost var memory, disk := Memory(selected), Disk(selected);
    var remainingMemory, remainingDisk := needMemory, needDisk;
    shards := [];
    SumOfNone([]);
    for index := 0 to |selected|
      invariant |shards| == index
      invariant Sum(MemoryOf(shards)) + remainingMemory == needMemory && Sum(DiskOf(shards)) + remainingDisk == needDisk
      invariant index < |selected| ==> remainingMemory == Remaining(needMemory, memory[..index])
      invariant index < |selected| ==> remainingDisk == Remaining(needDisk, disk[..index])
      invariant index == |selected| ==> remainingMemory == 0 == remainingDisk
      invariant forall i :: 0 <= i < index ==> ShardsOn(shards[i], selected[i])
      invariant forall i :: 0 <= i < index && i < |selected| - 1 ==>
        shards[i].memoryBytes <= selected[i].memory && shards[i].diskBytes <= selected[i].storage
      invariant index == |selected| ==>
        && shards[index - 1].memoryBytes == Remaining(needMemory, memory[..index - 1])
        && shards[index - 1].diskBytes == Remaining(needDisk, disk[..index - 1])
    {
      var c := selected[index];
      var memoryShare, diskShare := remainingMemory, remainingDisk;
      if index != |selected| - 1 {
        memoryShare := Min(c.memory, remainingMemory);
        diskShare := Min(c.storage, remainingDisk);
      }
      remainingMemory := remainingMemory - memoryShare;
      remainingDisk := remainingDisk - diskShare;
      ghost var before := shards;
      shards := shards + [Shard(c.nodeId, c.name, memoryShare, diskShare, c.memory, c.storage)];
      SumStep(MemoryOf(shards), index);
      SumStep(DiskOf(shards), index);
      assert MemoryOf(shards)[..index] == MemoryOf(before) && MemoryOf(shards)[..index + 1] == MemoryOf(shards);
      assert DiskOf(shards)[..index] == DiskOf(before) && DiskOf(shards)[..index + 1] == DiskOf(shards);
      assert memory[..index + 1][..index] == memory[..index] && disk[..index + 1][..index] == disk[..index];
    }
  }

  // ----- the plan -----

  /** The shards hold the model exactly and no shard is larger than its worker allows. */
  predicate Fits(shards: seq<Shard>, needMemory: nat, needDisk: nat) {
    && Sum(MemoryOf(shards)) == needMemory && Sum(DiskOf(shards)) == needDisk
    && forall i :: 0 <= i < |shards| ==>
         shards[i].memoryBytes <= shards[i].allowedMemory && shards[i].diskBytes <= shards[i].allowedStorage
  }

  /** A model goes to single workers if one is capable, is sharded over two or more usable workers exactly when
      some such set can hold it, and is blocked otherwise. The shards conserve the model and fit their workers. */
  method PlacementPlan(needMemory: nat, needDisk: nat, caps: seq<Capability>, sorted: seq<Capability>)
    returns (plan: Plan)
    requires IsShardOrder(UsableOf(caps), sorted)
    ensures forall c :: c in sorted <==> exists k :: k in caps && IsOffer(k, c)
    ensures forall i, k :: 0 <= i < k < |sorted| ==> ComesFirst(sorted[i], sorted[k])
    ensures plan.SingleWorker? <==> exists c :: c in caps && c.capable
    ensures plan.SingleWorker? ==> forall c :: c in plan.candidates <==> c in caps && c.capable
    ensures plan.Sharded? ==> |plan.shards| >= 2 && Fits(plan.shards, needMemory, needDisk)
    ensures plan.Sharded? ==> |plan.shards| <= |sorted|
    ensures plan.Sharded? ==> forall i :: 0 <= i < |plan.shards| ==> ShardsOn(plan.shards[i], sorted[i])
    ensures !plan.SingleWorker? ==>
      (plan.Sharded? <==> exists at :: SetHolds(Memory(sorted), Disk(sorted), needMemory, needDisk, at))
  {
    hide Sum, SumAt, SetHolds;
    OffersMean(caps, sorted);
    var single := CapableWorkers(caps);
    if |single| > 0 {
      assert single[0] in single;
      return SingleWorker(single);
    }
    assert forall c :: c in caps ==> c.capable ==> c in single;
    GreedyIsComplete(Memory(sorted), Disk(sorted), needMemory, needDisk);
    var selected, memory, disk := SelectShardWorkers(needMemory, needDisk, sorted);
    if |selected| > 1 && memory >= needMemory && disk >= needDisk {
      var shards := BuildShards(needMemory, needDisk, selected);
      LastShardFits(needMemory, Memory(selected));
      LastShardFits(needDisk, Disk(selected));
      plan := Sharded(shards);
    } else {
      plan := Blocked(memory, disk);
    }
  }

  /** `offer` is what worker `k` offers: it is idle or has a slot left, does not have the model, and has memory and
      storage to give; of the storage it allows, no more than it reports as free. */
  predicate IsOffer(k: Capability, offer: Capability) {
    && !k.installed && k.activeJobId == "" && (k.jobSlots <= 0 || k.activeJobs < k.jobSlots)
    && offer == k.(storage := offer.storage) && offer.memory > 0 && offer.storage > 0
    && offer.storage == if k.freeStorage == 0 || k.freeStorage > k.storage then k.storage else k.freeStorage
  }

  /** More memory, or as much and more storage, or as much of both and a name that is not larger. */
  predicate ComesFirst(a: Capability, b: Capability) {
    || a.memory > b.memory
    || (a.memory == b.memory && a.storage > b.storage)
    || (a.memory == b.memory && a.storage == b.storage && !StringLess(b.name, a.name))
  }

  lemma {:induction false} UsableMeans(caps: seq<Capability>)
    ensures forall c :: c in UsableOf(caps) <==> exists k :: k in caps && IsOffer(k, c)
  {
    if caps != [] {
      var front, last := caps[..|caps| - 1], caps[|caps| - 1];
      UsableMeans(front);
      assert caps == front + [last];
      assert Usable(last) ==> IsOffer(last, last.(storage := Effective(last)));
      assert forall c :: IsOffer(last, c) ==> Usable(last) && c == last.(storage := Effective(last));
      assert last in caps;
    }
  }

  lemma OffersMean(caps: seq<Capability>, sorted: seq<Capability>)
    requires IsShardOrder(UsableOf(caps), sorted)
    ensures forall c :: c in sorted <==> exists k :: k in caps && IsOffer(k, c)
    ensures forall i, k :: 0 <= i < k < |sorted| ==> ComesFirst(sorted[i], sorted[k])
  {
    hide IsOffer, StringLess;
    UsableMeans(caps);
    forall c ensures c in sorted <==> c in UsableOf(caps) {
      assert c in sorted <==> c in multiset(sorted);
      assert c in UsableOf(caps) <==> c in multiset(UsableOf(caps));
    }
    forall i, k | 0 <= i < k < |sorted| ensures ComesFirst(sorted[i], sorted[k]) {
      assert !ShardsBefore(sorted[k], sorted[i]);
    }
  }

  /** When the workers hold the model together, what the last one is left with fits it. */
  lemma LastShardFits(need: nat, allowed: seq<nat>)
    requires allowed != [] && Sum(allowed) >= need
    ensures Remaining(need, allowed[..|allowed| - 1]) <= allowed[|allowed| - 1]
  {
    RemainingIsShortfall(need, allowed[..|allowed| - 1]);
  }

  method CapableWorkers(caps: seq<Capability>) returns (single: seq<Capability>)
    ensures forall c :: c in single <==> c in caps && c.capable
  {
    single := [];
    for i := 0 to |caps|
      invariant forall c :: c in single <==> c in caps[..i] && c.capable
    {
      assert caps[..i + 1] == caps[..i] + [caps[i]];
      if caps[i].capable {
        single := single + [caps[i]];
      }
    }
    assert caps[..|caps|] == caps;
  }

  /** The usable workers are filtered one by one. */
  method UsableWorkers(caps: seq<Capability>) returns (usable: seq<Capability>)
    ensures usable == UsableOf(caps)
    ensures forall c :: c in usable <==> exists k :: k in caps && Usable(k) && c == k.(storage := Effective(k))
  {
    hide Usable, Effective;
    usable := [];
    for i := 0 to |caps|
      invariant usable == UsableOf(caps[..i])
      invariant forall c :: c in usable <==> exists k :: k in caps[..i] && Usable(k) && c == k.(storage := Effective(k))
    {
      assert caps[..i + 1][..i] == caps[..i];
      assert caps[..i + 1] == caps[..i] + [caps[i]];
      if Usable(caps[i]) {
        usable := usable + [caps[i].(storage := Effective(caps[i]))];
      }
    }
    assert caps[..|caps|] == caps;
  }

  /** Takes workers in order until two or more of them hold the model. */
  method SelectShardWorkers(needMemory: nat, needDisk: nat, sorted: seq<Capability>)
    returns (selected: seq<Capability>, memory: nat, disk: nat)
    ensures selected <= sorted && memory == Sum(Memory(selected)) && disk == Sum(Disk(selected))
    ensures (|selected| > 1 && memory >= needMemory && disk >= needDisk)
      <==> exists k :: PrefixHolds(Memory(sorted), Disk(sorted), needMemory, needDisk, k)
  {
    hide Sum;
    ghost var memories, disks := Memory(sorted), Disk(sorted);
    selected, memory, disk := [], 0, 0;
    SumOfNone(memories);
    SumOfNone(disks);
    for i := 0 to |sorted|
      invariant selected == sorted[..i]
      invariant memory == Sum(memories[..i]) && disk == Sum(disks[..i])
      invariant forall k :: 0 <= k <= i ==> !PrefixHolds(memories, disks, needMemory, needDisk, k)
    {
      selected := selected + [sorted[i]];
      memory := memory + sorted[i].memory;
      disk := disk + sorted[i].storage;
      SumStep(memories, i);
      SumStep(disks, i);
      assert Memory(selected) == memories[..i + 1] && Disk(selected) == disks[..i + 1];
      if memory >= needMemory && disk >= needDisk && |selected| > 1 {
        assert PrefixHolds(memories, disks, needMemory, needDisk, i + 1);
        return;
      }
    }
    assert Memory(selected) == memories[..|sorted|] && Disk(selected) == disks[..|sorted|];
    assert memories[..|sorted|] == memories;
    if |selected| > 1 && memory >= needMemory && disk >= needDisk {
      assert PrefixHolds(memories, disks, needMemory, needDisk, |sorted|);
    }
  }
}
