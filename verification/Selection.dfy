/** Which workers the distributed planner picks: the shortest sufficient prefix of the candidates. */
module Selection {
  import opened Finite
  import opened Text
  import opened Jobs

  const STAGE_OVERHEAD := 512 * 1024 * 1024

  function EffectiveStorage(node: Node): nat {
    if 0 < node.resources.storageFree < node.resources.storageAllowed
    then node.resources.storageFree else node.resources.storageAllowed
  }

  predicate IsCandidate(node: Node) {
    && node.role == Worker && node.status == Online
    && node.resources.memoryAllowed > STAGE_OVERHEAD
    && EffectiveStorage(node) != 0
  }

  function DisplayName(node: Node): string {
    if Blank(node.name) then node.id else node.name
  }

  /** The planner's sort order: more memory first, then the smaller display name. */
  predicate SortsBefore(a: Node, b: Node) {
    if a.resources.memoryAllowed != b.resources.memoryAllowed
    then a.resources.memoryAllowed > b.resources.memoryAllowed
    else StringLess(DisplayName(a), DisplayName(b))
  }

  function Candidates(nodes: seq<Node>): (kept: seq<Node>)
    ensures forall n :: n in kept <==> n in nodes && IsCandidate(n)
  {
    if nodes == [] then []
    else if IsCandidate(nodes[0]) then [nodes[0]] + Candidates(nodes[1..]) else Candidates(nodes[1..])
  }

  /** A result of sorting the candidates; workers that compare equal may come in any order. */
  ghost predicate IsCandidateList(nodes: seq<Node>, out: seq<Node>) {
    && multiset(out) == multiset(Candidates(nodes))
    && forall i, k :: 0 <= i < k < |out| ==> !SortsBefore(out[k], out[i])
  }

  // ----- sums -----

  function Sum(xs: seq<nat>): nat {
    if xs == [] then 0 else Sum(xs[..|xs| - 1]) + xs[|xs| - 1]
  }

  /** The sum over a set of positions. */
  function SumAt(xs: seq<nat>, at: set<nat>): nat {
    if xs == [] then 0 else SumAt(xs[..|xs| - 1], at) + if |xs| - 1 in at then xs[|xs| - 1] else 0
  }

  /** What a worker can hold of the model itself. */
  function Net(node: Node): nat
    requires IsCandidate(node)
  {
    node.resources.memoryAllowed - STAGE_OVERHEAD
  }

  function NetMemory(nodes: seq<Node>): (xs: seq<nat>)
    requires forall i :: 0 <= i < |nodes| ==> IsCandidate(nodes[i])
    ensures |xs| == |nodes| && forall i :: 0 <= i < |nodes| ==> xs[i] == Net(nodes[i])
  {
    seq(|nodes|, i requires 0 <= i < |nodes| => Net(nodes[i]))
  }

  function Storage(nodes: seq<Node>): (xs: seq<nat>)
    ensures |xs| == |nodes| && forall i :: 0 <= i < |nodes| ==> xs[i] == EffectiveStorage(nodes[i])
  {
    seq(|nodes|, i requires 0 <= i < |nodes| => EffectiveStorage(nodes[i]))
  }

  /** The first `k` workers hold the model, and there are at least two of them. */
  predicate PrefixHolds(memory: seq<nat>, disk: seq<nat>, needMemory: nat, needDisk: nat, k: nat)
    requires |memory| == |disk|
  {
    2 <= k <= |memory| && Sum(memory[..k]) >= needMemory && Sum(disk[..k]) >= needDisk
  }

  // ----- the greedy loop -----

  /** Takes workers in order until the model fits on two or more of them: the shortest sufficient prefix. */
  method SelectWorkers(needMemory: nat, needDisk: nat, candidates: seq<Node>) returns (selected: seq<Node>)
    requires forall i :: 0 <= i < |candidates| ==> IsCandidate(candidates[i])
    ensures selected <= candidates
    ensures forall k :: 0 <= k < |selected| ==>
      !PrefixHolds(NetMemory(candidates), Storage(candidates), needMemory, needDisk, k)
    ensures if selected != []
            then PrefixHolds(NetMemory(candidates), Storage(candidates), needMemory, needDisk, |selected|)
            else forall k :: 0 <= k <= |candidates| ==>
              !PrefixHolds(NetMemory(candidates), Storage(candidates), needMemory, needDisk, k)
  {
    hide Sum;
    ghost var nets, disks := NetMemory(candidates), Storage(candidates);
    var memory, disk := 0, 0;
    selected := [];
    SumOfNone(nets);
    SumOfNone(disks);
    for i := 0 to |candidates|
      invariant selected == candidates[..i]
      invariant memory == Sum(nets[..i]) && disk == Sum(disks[..i])
      invariant forall k :: 0 <= k <= i ==> !PrefixHolds(nets, disks, needMemory, needDisk, k)
    {
      selected := selected + [candidates[i]];
      memory := memory + (candidates[i].resources.memoryAllowed - STAGE_OVERHEAD);
      disk := disk + EffectiveStorage(candidates[i]);
      SumStep(nets, i);
      SumStep(disks, i);
      if |selected| >= 2 && memory >= needMemory && disk >= needDisk {
        return;
      }
    }
    selected := [];
  }

  lemma SumOfNone(xs: seq<nat>)
    ensures Sum(xs[..0]) == 0
  {
  }

  lemma SumStep(xs: seq<nat>, i: nat)
    requires i < |xs|
    ensures Sum(xs[..i + 1]) == Sum(xs[..i]) + xs[i]
  {
    assert xs[..i + 1][..i] == xs[..i];
  }

  // ----- completeness -----

  lemma {:induction false} SomeAtMostAll(xs: seq<nat>, at: set<nat>)
    ensures SumAt(xs, at) <= Sum(xs)
  {
    if xs != [] {
      SomeAtMostAll(xs[..|xs| - 1], at);
    }
  }

  /** The positions of the first `k` workers. */
  function Below(k: nat): (at: set<nat>)
    ensures forall i: int :: i in at <==> 0 <= i < k
  {
    if k == 0 then {} else Below(k - 1) + {k - 1}
  }

  lemma {:induction false} PrefixIsASet(xs: seq<nat>, k: nat)
    requires k <= |xs|
    ensures SumAt(xs, Below(k)) == Sum(xs[..k])
  {
    if k == |xs| {
      assert xs[..k] == xs;
      if xs != [] {
        PrefixIsASet(xs[..k - 1], k - 1);
        assert xs[..k - 1][..k - 1] == xs[..k - 1];
        OnlyPositionsMatter(xs[..k - 1], Below(k), Below(k - 1));
      }
    } else {
      PrefixIsASet(xs[..|xs| - 1], k);
      assert xs[..|xs| - 1][..k] == xs[..k];
    }
  }

  lemma {:induction false} OnlyPositionsMatter(xs: seq<nat>, at: set<nat>, at': set<nat>)
    requires forall i: nat :: i < |xs| ==> (i in at <==> i in at')
    ensures SumAt(xs, at) == SumAt(xs, at')
  {
    if xs != [] {
      OnlyPositionsMatter(xs[..|xs| - 1], at, at');
    }
  }

  /** The chosen positions hold the model on two or more workers. */
  ghost predicate SetHolds(memory: seq<nat>, disk: seq<nat>, needMemory: nat, needDisk: nat, at: set<nat>)
    requires |memory| == |disk|
  {
    && |at| >= 2 && (forall i :: i in at ==> i < |memory|)
    && SumAt(memory, at) >= needMemory && SumAt(disk, at) >= needDisk
  }

  /** Trying only prefixes loses nothing: some prefix holds the model exactly when some set of workers does. */
  lemma GreedyIsComplete(memory: seq<nat>, disk: seq<nat>, needMemory: nat, needDisk: nat)
    requires |memory| == |disk|
    ensures (exists k :: PrefixHolds(memory, disk, needMemory, needDisk, k))
      <==> (exists at :: SetHolds(memory, disk, needMemory, needDisk, at))
  {
    if k :| PrefixHolds(memory, disk, needMemory, needDisk, k) {
      PrefixIsASet(memory, k);
      PrefixIsASet(disk, k);
      BelowSize(k);
      assert SetHolds(memory, disk, needMemory, needDisk, Below(k));
    }
    if at :| SetHolds(memory, disk, needMemory, needDisk, at) {
      SomeAtMostAll(memory, at);
      SomeAtMostAll(disk, at);
      assert memory[..|memory|] == memory && disk[..|disk|] == disk;
      BelowSize(|memory|);
      SubsetSize(at, Below(|memory|));
      assert PrefixHolds(memory, disk, needMemory, needDisk, |memory|);
    }
  }

  lemma {:induction false} BelowSize(k: nat)
    ensures |Below(k)| == k
  {
    if k > 0 {
      BelowSize(k - 1);
    }
  }

  // ----- minimality -----

  predicate Descending(xs: seq<nat>) {
    forall i, k :: 0 <= i < k < |xs| ==> xs[i] >= xs[k]
  }

  /** Exchange: on a descending list no set of positions sums to more than the prefix of the same size. */
  lemma {:induction false} PrefixIsBest(xs: seq<nat>, at: set<nat>)
    requires Descending(xs) && forall i :: i in at ==> i < |xs|
    ensures |at| <= |xs| && SumAt(xs, at) <= Sum(xs[..|at|])
  {
    if xs == [] {
      assert at == {};
    } else {
      var last := |xs| - 1;
      var init, rest := xs[..last], at - {last};
      PrefixIsBest(init, rest);
      OnlyPositionsMatter(init, at, rest);
      if last in at {
        assert |at| == |rest| + 1;
        assert xs[..|at|][..|at| - 1] == init[..|rest|];
        assert xs[last] <= xs[|at| - 1];
      } else {
        assert rest == at && xs[..|at|] == init[..|at|];
      }
    }
  }

  /** When the disk already sufficed one worker earlier, no smaller set of two or more workers has enough memory. */
  lemma GreedyIsMinimal(memory: seq<nat>, disk: seq<nat>, needMemory: nat, needDisk: nat, k: nat, at: set<nat>)
    requires |memory| == |disk| && Descending(memory)
    requires PrefixHolds(memory, disk, needMemory, needDisk, k)
    requires forall n :: 0 <= n < k ==> !PrefixHolds(memory, disk, needMemory, needDisk, n)
    requires Sum(disk[..k - 1]) >= needDisk
    requires 2 <= |at| < k && forall i :: i in at ==> i < |memory|
    ensures SumAt(memory, at) < needMemory
  {
    PrefixIsBest(memory, at);
    SumGrows(memory, |at|, k - 1);
    assert !PrefixHolds(memory, disk, needMemory, needDisk, k - 1);
  }

  lemma FewestWorkers(memory: seq<nat>, disk: seq<nat>, needMemory: nat, needDisk: nat, k: nat)
    requires |memory| == |disk| && Descending(memory)
    requires PrefixHolds(memory, disk, needMemory, needDisk, k)
    requires forall n :: 0 <= n < k ==> !PrefixHolds(memory, disk, needMemory, needDisk, n)
    requires Sum(disk[..k - 1]) >= needDisk
    ensures forall at :: SetHolds(memory, disk, needMemory, 0, at) ==> |at| >= k
  {
    forall at | SetHolds(memory, disk, needMemory, 0, at) ensures |at| >= k {
      if |at| < k {
        GreedyIsMinimal(memory, disk, needMemory, needDisk, k, at);
      }
    }
  }

  lemma {:induction false} SumGrows(xs: seq<nat>, i: nat, k: nat)
    requires i <= k <= |xs|
    ensures Sum(xs[..i]) <= Sum(xs[..k])
    decreases k - i
  {
    if i < k {
      SumGrows(xs, i, k - 1);
      assert xs[..k][..k - 1] == xs[..k - 1];
    }
  }

  /** Sorting the candidates puts their net memory in descending order. */
  lemma CandidateListDescends(nodes: seq<Node>, out: seq<Node>)
    requires IsCandidateList(nodes, out)
    ensures forall i :: 0 <= i < |out| ==> out[i] in nodes && IsCandidate(out[i])
    ensures Descending(NetMemory(out))
  {
    forall i | 0 <= i < |out| ensures out[i] in nodes && IsCandidate(out[i]) {
      assert out[i] in multiset(out);
      assert out[i] in Candidates(nodes);
    }
    forall i, k | 0 <= i < k < |out| ensures NetMemory(out)[i] >= NetMemory(out)[k] {
      assert !SortsBefore(out[k], out[i]);
    }
  }

  /** The planner finds workers exactly when some two or more candidates can hold the model together; it takes
      as few as any choice needs, unless it had to go on for disk space alone. */
  method PlanWorkers(needMemory: nat, needDisk: nat, nodes: seq<Node>, sorted: seq<Node>) returns (selected: seq<Node>)
    requires IsCandidateList(nodes, sorted)
    ensures forall n :: n in selected ==> n in nodes && IsCandidate(n)
    ensures forall n :: n in sorted ==> IsCandidate(n)
    ensures selected == [] <==> !exists at :: SetHolds(NetMemory(sorted), Storage(sorted), needMemory, needDisk, at)
    ensures selected != [] ==> |selected| >= 2 && selected <= sorted
    ensures selected != [] ==> PrefixHolds(NetMemory(sorted), Storage(sorted), needMemory, needDisk, |selected|)
    ensures forall n :: n in sorted <==> n in nodes && CanHostStage(n)
    ensures selected != [] && Sum(Storage(sorted)[..|selected| - 1]) >= needDisk ==>
      forall at :: SetHolds(NetMemory(sorted), Storage(sorted), needMemory, 0, at) ==> |at| >= |selected|
  {
    hide Sum, SumAt, SetHolds, IsCandidate;
    CandidateListDescends(nodes, sorted);
    CandidateListMeans(nodes, sorted);
    selected := SelectWorkers(needMemory, needDisk, sorted);
    ghost var memory, disk := NetMemory(sorted), Storage(sorted);
    GreedyIsComplete(memory, disk, needMemory, needDisk);
    if selected != [] && Sum(disk[..|selected| - 1]) >= needDisk {
      FewestWorkers(memory, disk, needMemory, needDisk, |selected|);
    }
  }

  // ----- what a candidate is -----

  /** The storage a worker can give: what it allows, or what it reports as free when that is less. */
  function DiskToGive(node: Node): nat {
    var allowed, free := node.resources.storageAllowed, node.resources.storageFree;
    if free == 0 || free >= allowed then allowed else free
  }

  /** An online worker with storage to give and more memory than the 512 MiB a stage takes for itself. */
  predicate CanHostStage(node: Node) {
    node.role == Worker && node.status == Online && node.resources.memoryAllowed > 536_870_912 && DiskToGive(node) > 0
  }

  function NameShown(node: Node): string {
    if Shows(node.name) then node.name else node.id
  }

  /** The candidates are exactly the workers that can host a stage, in descending order of memory and, within that, in
      order of the names shown; what counts of each is its memory less 512 MiB and the storage it can give. */
  lemma CandidateListMeans(nodes: seq<Node>, sorted: seq<Node>)
    requires IsCandidateList(nodes, sorted)
    ensures forall n :: n in sorted <==> n in nodes && CanHostStage(n)
    ensures forall i :: 0 <= i < |sorted| ==> IsCandidate(sorted[i])
    ensures forall i :: 0 <= i < |sorted| ==>
      && NetMemory(sorted)[i] == sorted[i].resources.memoryAllowed - 536_870_912
      && Storage(sorted)[i] == DiskToGive(sorted[i])
    ensures forall i, k :: 0 <= i < k < |sorted| ==>
      || sorted[i].resources.memoryAllowed > sorted[k].resources.memoryAllowed
      || (sorted[i].resources.memoryAllowed == sorted[k].resources.memoryAllowed
          && !StringLess(NameShown(sorted[k]), NameShown(sorted[i])))
  {
    hide StringLess, Shows, Blank;
    CandidateListDescends(nodes, sorted);
    forall n ensures n in sorted <==> n in nodes && CanHostStage(n) {
      assert n in sorted <==> n in multiset(sorted);
      assert n in Candidates(nodes) <==> n in multiset(Candidates(nodes));
    }
    forall i, k | 0 <= i < k < |sorted|
      ensures || sorted[i].resources.memoryAllowed > sorted[k].resources.memoryAllowed
        || (sorted[i].resources.memoryAllowed == sorted[k].resources.memoryAllowed
            && !StringLess(NameShown(sorted[k]), NameShown(sorted[i])))
    {
      NameMeans(sorted[i]);
      NameMeans(sorted[k]);
      assert !SortsBefore(sorted[k], sorted[i]);
    }
  }

  lemma NameMeans(node: Node)
    ensures DisplayName(node) == NameShown(node)
  {
    hide TrimSpace, Shows;
    BlankMeans(node.name);
  }
}
