/** The pool of llama.cpp RPC endpoints: how they are collected from the workers, cleaned and ranked. */
module RpcPool {
  import opened Text

  const QUARANTINE_FAILURES := 3
  const MAX_ENDPOINTS := 8
  const PROTOCOL := "cmesh.distributed-rpc"

  // ----- cleaning -----

  /** The distinct visible endpoints, trimmed, in order of first appearance. */
  function Clean(endpoints: seq<string>): (out: seq<string>) {
    if endpoints == [] then []
    else
      var out, last := Clean(endpoints[..|endpoints| - 1]), TrimSpace(endpoints[|endpoints| - 1]);
      if last == "" || last in out then out else out + [last]
  }

  predicate IsClean(endpoints: seq<string>) {
    && (forall e :: e in endpoints ==> e != "" && TrimSpace(e) == e)
    && (forall i, k :: 0 <= i < k < |endpoints| ==> endpoints[i] != endpoints[k])
  }

  lemma {:induction false} CleanIsClean(endpoints: seq<string>)
    ensures IsClean(Clean(endpoints))
    ensures forall e :: e in Clean(endpoints) <==> e != "" && exists x :: x in endpoints && TrimSpace(x) == e
  {
    hide TrimSpace;
    if endpoints != [] {
      var front, last := endpoints[..|endpoints| - 1], endpoints[|endpoints| - 1];
      CleanIsClean(front);
      TrimTwice(last);
      assert forall x :: x in endpoints <==> x in front || x == last by {
        assert endpoints == front + [last];
      }
      assert last in endpoints;
    }
  }

  lemma TrimTwice(s: string)
    ensures TrimSpace(TrimSpace(s)) == TrimSpace(s)
  {
    TrimSpaceTrims(s);
    TrimSpaceTrims(TrimSpace(s));
  }

  lemma SliceIsClean(endpoints: seq<string>, low: nat, high: nat)
    requires low <= high <= |endpoints| && IsClean(endpoints)
    ensures IsClean(endpoints[low..high])
  {
    var slice := endpoints[low..high];
    forall i, k | 0 <= i < k < |slice| ensures slice[i] != slice[k] {
      assert endpoints[low + i] != endpoints[low + k];
    }
    forall e | e in slice ensures e in endpoints {
    }
  }

  /** Cleaning a clean list changes nothing; so cleaning twice is cleaning once. */
  lemma {:induction false} CleanKeepsClean(endpoints: seq<string>)
    requires IsClean(endpoints)
    ensures Clean(endpoints) == endpoints
  {
    hide TrimSpace;
    if endpoints != [] {
      var front, last := endpoints[..|endpoints| - 1], endpoints[|endpoints| - 1];
      assert endpoints == front + [last];
      SliceIsClean(endpoints, 0, |front|);
      CleanKeepsClean(front);
      assert last in endpoints;
    }
  }

  method CleanEndpoints(endpoints: seq<string>) returns (out: seq<string>)
    ensures out == Clean(endpoints)
    ensures IsClean(out)
  {
    hide TrimSpace;
    out := [];
    var seen: set<string> := {};
    for i := 0 to |endpoints|
      invariant out == Clean(endpoints[..i])
      invariant seen == set e | e in out
    {
      assert endpoints[..i + 1][..i] == endpoints[..i];
      var endpoint := TrimSpace(endpoints[i]);
      if !(endpoint == "" || endpoint in seen) {
        seen := seen + {endpoint};
        out := out + [endpoint];
      }
    }
    assert endpoints[..|endpoints|] == endpoints;
    CleanIsClean(endpoints);
  }

  // ----- ranking -----

  datatype HealthRecord = HealthRecord(endpoint: string, ready: bool, consecutiveFailures: int, failures: int,
    latency: int)

  type Health = map<string, HealthRecord>

  /** The last record of each endpoint. */
  function ByEndpoint(records: seq<HealthRecord>): Health {
    if records == [] then map[]
    else
      var known, last := ByEndpoint(records[..|records| - 1]), records[|records| - 1];
      if Blank(last.endpoint) then known else known[TrimSpace(last.endpoint) := last]
  }

  function Rank(health: Health, endpoint: string): nat {
    if endpoint !in health then 1 else if health[endpoint].ready then 0 else 2
  }

  /** Healthy before unknown before unhealthy; then fewer failures, lower latency (an unmeasured one is worst), name. */
  predicate Before(health: Health, a: string, b: string) {
    if Rank(health, a) != Rank(health, b) then Rank(health, a) < Rank(health, b)
    else if a !in health || b !in health then StringLess(a, b)
    else
      var x, y := health[a], health[b];
      if x.consecutiveFailures != y.consecutiveFailures then x.consecutiveFailures < y.consecutiveFailures
      else if x.failures != y.failures then x.failures < y.failures
      else if x.latency != y.latency then x.latency != 0 && (y.latency == 0 || x.latency < y.latency)
      else StringLess(a, b)
  }

  lemma {:induction false} StringLessIsTotal(a: string, b: string)
    ensures !StringLess(a, a)
    ensures a != b ==> (StringLess(a, b) <==> !StringLess(b, a))
  {
    if a != "" {
      StringLessIsTotal(a[1..], if b != "" then b[1..] else b);
      assert b != "" && a[0] == b[0] && a[1..] == b[1..] ==> a == [a[0]] + a[1..] == b;
    }
  }

  lemma {:induction false} StringLessChains(a: string, b: string, c: string)
    requires StringLess(a, b) && StringLess(b, c)
    ensures StringLess(a, c)
  {
    if a != "" && a[0] == b[0] == c[0] {
      StringLessChains(a[1..], b[1..], c[1..]);
    }
  }

  /** The comparison is a strict total order on endpoints, whatever the health records say. */
  lemma RankingOrderIsStrict(health: Health, a: string, b: string, c: string)
    ensures !Before(health, a, a)
    ensures a != b ==> (Before(health, a, b) <==> !Before(health, b, a))
    ensures Before(health, a, b) && Before(health, b, c) ==> Before(health, a, c)
  {
    hide StringLess;
    StringLessIsTotal(a, b);
    if StringLess(a, b) && StringLess(b, c) {
      StringLessChains(a, b, c);
    }
  }

  predicate Ascends(health: Health, out: seq<string>) {
    forall i, k :: 0 <= i < k < |out| ==> Before(health, out[i], out[k])
  }

  function Insert(health: Health, endpoint: string, out: seq<string>): seq<string> {
    if out == [] || Before(health, endpoint, out[0]) then [endpoint] + out
    else [out[0]] + Insert(health, endpoint, out[1..])
  }

  /** The endpoints in ranking order. */
  function Ranking(health: Health, endpoints: seq<string>): seq<string> {
    if endpoints == [] then [] else Insert(health, endpoints[0], Ranking(health, endpoints[1..]))
  }

  lemma {:induction false} InsertAdds(health: Health, endpoint: string, out: seq<string>)
    ensures multiset(Insert(health, endpoint, out)) == multiset(out) + multiset{endpoint}
  {
    hide Before;
    if out != [] && !Before(health, endpoint, out[0]) {
      InsertAdds(health, endpoint, out[1..]);
      assert out == [out[0]] + out[1..];
    }
  }

  lemma {:induction false} InsertKeepsOrder(health: Health, endpoint: string, out: seq<string>)
    requires Ascends(health, out) && endpoint !in out
    ensures Ascends(health, Insert(health, endpoint, out))
  {
    hide Before;
    if out != [] {
      var rest := Insert(health, endpoint, out[1..]);
      RankingOrderIsStrict(health, endpoint, out[0], out[0]);
      if Before(health, endpoint, out[0]) {
        forall k | 0 <= k < |out| ensures Before(health, endpoint, out[k]) {
          RankingOrderIsStrict(health, endpoint, out[0], out[k]);
        }
      } else {
        InsertKeepsOrder(health, endpoint, out[1..]);
        InsertAdds(health, endpoint, out[1..]);
        forall k | 0 <= k < |rest| ensures Before(health, out[0], rest[k]) {
          assert rest[k] in multiset(rest);
          assert rest[k] in out[1..] || rest[k] == endpoint;
        }
      }
    }
  }

  /** Ranking is a sorted rearrangement. */
  lemma {:induction false} RankingSorts(health: Health, endpoints: seq<string>)
    requires IsClean(endpoints)
    ensures Ascends(health, Ranking(health, endpoints))
    ensures multiset(Ranking(health, endpoints)) == multiset(endpoints)
  {
    hide TrimSpace, Before, Insert;
    if endpoints != [] {
      assert endpoints == [endpoints[0]] + endpoints[1..];
      SliceIsClean(endpoints, 1, |endpoints|);
      assert endpoints[1..|endpoints|] == endpoints[1..];
      RankingSorts(health, endpoints[1..]);
      var rest := Ranking(health, endpoints[1..]);
      assert endpoints[0] !in rest by {
        assert endpoints[0] !in endpoints[1..];
        assert endpoints[0] !in multiset(rest);
      }
      InsertKeepsOrder(health, endpoints[0], rest);
      InsertAdds(health, endpoints[0], rest);
    }
  }

  /** There is one sorted list per set of endpoints, so every sorting algorithm gives the same ranking. */
  lemma {:induction false} RankingIsUnique(health: Health, xs: seq<string>, ys: seq<string>)
    requires Ascends(health, xs) && Ascends(health, ys)
    requires forall e :: e in xs <==> e in ys
    ensures xs == ys
  {
    hide Before;
    if xs == [] {
      if ys != [] {
        HasMember(ys);
        assert false;
      }
    } else {
      assert xs[0] in ys;
      FirstIsLeast(health, xs, ys[0]);
      FirstIsLeast(health, ys, xs[0]);
      RankingOrderIsStrict(health, xs[0], ys[0], xs[0]);
      TailDropsFirst(health, xs);
      TailDropsFirst(health, ys);
      RankingIsUnique(health, xs[1..], ys[1..]);
      assert xs == [xs[0]] + xs[1..] && ys == [ys[0]] + ys[1..];
    }
  }

  lemma HasMember(xs: seq<string>)
    requires xs != []
    ensures exists e :: e in xs
  {
    assert xs[0] in xs;
  }

  lemma FirstIsLeast(health: Health, xs: seq<string>, e: string)
    requires Ascends(health, xs) && e in xs
    ensures e == xs[0] || Before(health, xs[0], e)
  {
    hide Before;
    var i :| 0 <= i < |xs| && xs[i] == e;
    assert i > 0 ==> Before(health, xs[0], xs[i]);
  }

  lemma TailDropsFirst(health: Health, xs: seq<string>)
    requires xs != [] && Ascends(health, xs)
    ensures forall e :: e in xs[1..] <==> e in xs && e != xs[0]
  {
    hide Before;
    RankingOrderIsStrict(health, xs[0], xs[0], xs[0]);
    assert xs == [xs[0]] + xs[1..];
    forall e | e in xs[1..] ensures e != xs[0] {
      var i :| 0 <= i < |xs[1..]| && xs[1..][i] == e;
      assert Before(health, xs[0], xs[i + 1]);
    }
  }

  /** The ranking depends on which endpoints are offered, not on their order, repetitions or padding. */
  lemma RankingIgnoresOrder(health: Health, offered: seq<string>, again: seq<string>)
    requires forall e :: e in Clean(offered) <==> e in Clean(again)
    ensures Ranking(health, Clean(offered)) == Ranking(health, Clean(again))
  {
    hide TrimSpace, Before, Ranking, Clean;
    CleanIsClean(offered);
    CleanIsClean(again);
    var xs, ys := Ranking(health, Clean(offered)), Ranking(health, Clean(again));
    RankingHolds(health, Clean(offered));
    RankingHolds(health, Clean(again));
    RankingIsUnique(health, xs, ys);
  }

  lemma RankingHolds(health: Health, endpoints: seq<string>)
    requires IsClean(endpoints)
    ensures Ascends(health, Ranking(health, endpoints))
    ensures forall e :: e in Ranking(health, endpoints) <==> e in endpoints
  {
    RankingSorts(health, endpoints);
    forall e ensures e in Ranking(health, endpoints) <==> e in endpoints {
      assert e in Ranking(health, endpoints) <==> e in multiset(Ranking(health, endpoints));
      assert e in endpoints <==> e in multiset(endpoints);
    }
  }

  predicate Quarantined(health: Health, endpoint: string) {
    endpoint in health && !health[endpoint].ready && health[endpoint].consecutiveFailures >= QUARANTINE_FAILURES
  }

  // ----- what the ranking says of the health records -----

  predicate IsUp(health: Health, e: string) {
    e in health && health[e].ready
  }

  predicate IsDown(health: Health, e: string) {
    e in health && !health[e].ready
  }

  /** Down, and it failed its last three checks or more. */
  predicate IsSetAside(health: Health, e: string) {
    IsDown(health, e) && health[e].consecutiveFailures >= 3
  }

  /** Of two endpoints that are both up or both down: the one that failed less often lately comes first; then the one
      that failed less often; then the faster one, an unmeasured one counting as slowest; then by name. */
  predicate IsNoWorse(health: Health, a: string, b: string)
    requires a in health && b in health
  {
    var x, y := health[a], health[b];
    && x.consecutiveFailures <= y.consecutiveFailures
    && (x.consecutiveFailures == y.consecutiveFailures ==> x.failures <= y.failures)
    && (x.consecutiveFailures == y.consecutiveFailures && x.failures == y.failures ==>
          x.latency == y.latency || y.latency == 0 || (x.latency != 0 && x.latency < y.latency))
    && (x.consecutiveFailures == y.consecutiveFailures && x.failures == y.failures && x.latency == y.latency ==>
          StringLess(a, b))
  }

  /** Up before unknown before down. */
  predicate ComesBefore(health: Health, a: string, b: string) {
    && (IsUp(health, b) ==> IsUp(health, a))
    && (IsDown(health, a) ==> IsDown(health, b))
    && (IsUp(health, a) && IsUp(health, b) ==> IsNoWorse(health, a, b))
    && (IsDown(health, a) && IsDown(health, b) ==> IsNoWorse(health, a, b))
    && (a !in health && b !in health ==> StringLess(a, b))
  }

  lemma BeforeMeans(health: Health, a: string, b: string)
    ensures Before(health, a, b) <==> ComesBefore(health, a, b)
  {
    hide StringLess;
    StringLessIsTotal(a, b);
  }

  /** The record that counts for an endpoint is the last one that names it, white space aside. */
  lemma {:induction false} LastRecordCounts(records: seq<HealthRecord>, e: string)
    ensures e in ByEndpoint(records) <==>
      e != "" && exists k :: 0 <= k < |records| && TrimSpace(records[k].endpoint) == e
    ensures e in ByEndpoint(records) ==> exists k :: IsLastOf(records, e, k) && ByEndpoint(records)[e] == records[k]
  {
    hide TrimSpace;
    if records != [] {
      var front, last := records[..|records| - 1], |records| - 1;
      LastRecordCounts(front, e);
      assert records == front + [records[last]];
      if TrimSpace(records[last].endpoint) == e && e != "" {
        assert IsLastOf(records, e, last);
      } else if e in ByEndpoint(front) {
        var k :| IsLastOf(front, e, k) && ByEndpoint(front)[e] == front[k];
        assert records[k] == front[k] && IsLastOf(records, e, k);
      }
    }
  }

  predicate IsLastOf(records: seq<HealthRecord>, e: string, k: int) {
    && 0 <= k < |records| && TrimSpace(records[k].endpoint) == e
    && forall n :: k < n < |records| ==> TrimSpace(records[n].endpoint) != e
  }

  /** Ranks the endpoints, leaving out quarantined ones unless asked to keep them. */
  method UsableEndpoints(endpoints: seq<string>, health: Health, includeQuarantined: bool) returns (out: seq<string>)
    ensures Ascends(health, out) && IsClean(out)
    ensures forall e :: e in out <==> e in Clean(endpoints) && (includeQuarantined || !Quarantined(health, e))
    ensures forall e :: e in out <==> IsNamed(endpoints, e) && (includeQuarantined || !IsSetAside(health, e))
    ensures forall i, k :: 0 <= i < k < |out| ==> ComesBefore(health, out[i], out[k])
  {
    hide TrimSpace, Before, Ranking, Clean;
    NamedMeans(endpoints);
    CleanIsClean(endpoints);
    RankingHolds(health, Clean(endpoints));
    var clean := CleanEndpoints(endpoints);
    var ranked := Ranking(health, clean);
    if includeQuarantined {
      AscendingIsDistinct(health, ranked);
      AscendsMeans(health, ranked);
      return ranked;
    }
    out := [];
    for i := 0 to |ranked|
      invariant forall e :: e in out <==> e in ranked[..i] && !Quarantined(health, e)
      invariant Ascends(health, out)
    {
      assert ranked[..i + 1] == ranked[..i] + [ranked[i]];
      if !Quarantined(health, ranked[i]) {
        forall k | 0 <= k < |out| ensures Before(health, out[k], ranked[i]) {
          assert out[k] in ranked[..i];
        }
        out := out + [ranked[i]];
      }
    }
    assert ranked[..|ranked|] == ranked;
    AscendingIsDistinct(health, out);
    AscendsMeans(health, out);
  }

  lemma AscendsMeans(health: Health, out: seq<string>)
    ensures Ascends(health, out) <==> forall i, k :: 0 <= i < k < |out| ==> ComesBefore(health, out[i], out[k])
  {
    hide Before, ComesBefore;
    forall i, k | 0 <= i < k < |out| ensures Before(health, out[i], out[k]) <==> ComesBefore(health, out[i], out[k]) {
      BeforeMeans(health, out[i], out[k]);
    }
  }

  /** The endpoint shows, and one of those given is it, white space aside. */
  predicate IsNamed(endpoints: seq<string>, e: string) {
    e != "" && exists i :: 0 <= i < |endpoints| && TrimSpace(endpoints[i]) == e
  }

  lemma NamedMeans(endpoints: seq<string>)
    ensures forall e :: e in Clean(endpoints) <==> IsNamed(endpoints, e)
  {
    hide TrimSpace, Clean;
    CleanIsClean(endpoints);
  }

  lemma AscendingIsDistinct(health: Health, out: seq<string>)
    requires Ascends(health, out)
    ensures forall i, k :: 0 <= i < k < |out| ==> out[i] != out[k]
  {
    hide Before;
    forall i, k | 0 <= i < k < |out| ensures out[i] != out[k] {
      RankingOrderIsStrict(health, out[i], out[k], out[i]);
    }
  }

  // ----- the pool -----

  datatype Rpc = Rpc(endpoint: string, ready: bool)
  datatype Runtime = Runtime(name: string, ready: bool, rpcs: seq<Rpc>)
  datatype PoolNode = PoolNode(id: string, name: string, worker: bool, online: bool, runtimes: seq<Runtime>)
  datatype Worker = Worker(nodeId: string, nodeName: string, runtime: string, runtimeReady: bool, rpc: Rpc)

  predicate IsReady(worker: Worker) {
    worker.runtimeReady && worker.rpc.ready && !Blank(worker.rpc.endpoint)
  }

  /** Endpoint `endpoint` is served by some ready entry of the pool. */
  ghost predicate Offers(workers: seq<Worker>, endpoint: string) {
    exists w :: w in workers && IsReady(w) && TrimSpace(w.rpc.endpoint) == endpoint
  }

  ghost predicate InPool(nodes: seq<PoolNode>, w: Worker) {
    exists n :: n in nodes && n.worker && n.online && OnNode(n, w)
  }

  ghost predicate OnNode(n: PoolNode, w: Worker) {
    w.nodeId == n.id && w.nodeName == n.name && w.runtimeReady && (exists r :: r in n.runtimes && OnRuntime(r, w))
  }

  ghost predicate OnRuntime(r: Runtime, w: Worker) {
    r.ready && w.runtime == r.name && w.rpc in r.rpcs
  }

  /** The order the pool is listed in: by worker name, then by endpoint. */
  predicate ListsBefore(a: Worker, b: Worker) {
    if a.nodeName != b.nodeName then StringLess(a.nodeName, b.nodeName)
    else StringLess(a.rpc.endpoint, b.rpc.endpoint)
  }

  predicate IsListed(workers: seq<Worker>) {
    forall i, k :: 0 <= i < k < |workers| ==> !ListsBefore(workers[k], workers[i])
  }

  /** Walks the nodes, their ready runtimes and their RPC entries; the endpoints come out distinct and unsorted. */
  method PoolReport(nodes: seq<PoolNode>) returns (workers: seq<Worker>, endpoints: seq<string>)
    ensures forall w :: w in workers <==> InPool(nodes, w)
    ensures forall e :: e in endpoints <==> Offers(workers, e)
    ensures IsClean(endpoints)
  {
    hide Blank, TrimSpace;
    workers, endpoints := [], [];
    for i := 0 to |nodes|
      invariant forall w :: w in workers <==> InPool(nodes[..i], w)
      invariant Lists(workers, endpoints)
    {
      assert nodes[..i + 1] == nodes[..i] + [nodes[i]];
      ghost var before := workers;
      if nodes[i].worker && nodes[i].online {
        workers, endpoints := NodeReport(nodes[i], workers, endpoints);
      }
      assert forall w :: InPool(nodes[..i + 1], w) <==>
        InPool(nodes[..i], w) || (nodes[i].worker && nodes[i].online && OnNode(nodes[i], w));
    }
    assert nodes[..|nodes|] == nodes;
  }

  ghost predicate Lists(workers: seq<Worker>, endpoints: seq<string>) {
    (forall e :: e in endpoints <==> Offers(workers, e)) && IsClean(endpoints)
  }

  method NodeReport(node: PoolNode, pool: seq<Worker>, known: seq<string>)
    returns (workers: seq<Worker>, endpoints: seq<string>)
    requires Lists(pool, known)
    ensures forall w :: w in workers <==> w in pool || OnNode(node, w)
    ensures Lists(workers, endpoints)
  {
    hide Blank, TrimSpace, Lists;
    workers, endpoints := pool, known;
    for i := 0 to |node.runtimes|
      invariant forall w :: w in workers <==> w in pool || OnNode(node.(runtimes := node.runtimes[..i]), w)
      invariant Lists(workers, endpoints)
    {
      var runtime := node.runtimes[i];
      assert node.runtimes[..i + 1] == node.runtimes[..i] + [runtime];
      OnNodeStep(node, i);
      if runtime.ready {
        workers, endpoints := RuntimeReport(node, runtime, workers, endpoints);
      }
    }
    assert node.(runtimes := node.runtimes[..|node.runtimes|]) == node;
  }

  lemma OnNodeStep(node: PoolNode, i: nat)
    requires i < |node.runtimes|
    ensures forall w :: OnNode(node.(runtimes := node.runtimes[..i + 1]), w) <==>
      OnNode(node.(runtimes := node.runtimes[..i]), w) || (node.runtimes[i].ready && IsEntry(node, node.runtimes[i], w))
  {
    var before, after := node.runtimes[..i], node.runtimes[..i + 1];
    assert after == before + [node.runtimes[i]];
    assert forall r :: r in after <==> r in before || r == node.runtimes[i];
    assert node.runtimes[i] in after;
  }

  method RuntimeReport(node: PoolNode, runtime: Runtime, pool: seq<Worker>, known: seq<string>)
    returns (workers: seq<Worker>, endpoints: seq<string>)
    requires Lists(pool, known) && runtime.ready
    ensures forall w :: w in workers <==> w in pool || IsEntry(node, runtime, w)
    ensures Lists(workers, endpoints)
  {
    hide Lists;
    workers, endpoints := pool, known;
    for i := 0 to |runtime.rpcs|
      invariant forall w :: w in workers <==> w in pool || IsEntry(node, runtime.(rpcs := runtime.rpcs[..i]), w)
      invariant Lists(workers, endpoints)
    {
      var rpc := runtime.rpcs[i];
      assert runtime.rpcs[..i + 1] == runtime.rpcs[..i] + [rpc];
      var endpoint := TrimSpace(rpc.endpoint);
      var entry := Worker(node.id, node.name, runtime.name, true, rpc);
      ListsEntry(workers, endpoints, entry);
      if rpc.ready && endpoint != "" && endpoint !in endpoints {
        endpoints := endpoints + [endpoint];
      }
      workers := workers + [entry];
    }
    assert runtime.(rpcs := runtime.rpcs[..|runtime.rpcs|]) == runtime;
  }

  ghost predicate IsEntry(node: PoolNode, runtime: Runtime, w: Worker) {
    w.nodeId == node.id && w.nodeName == node.name && w.runtimeReady && w.runtime == runtime.name
      && w.rpc in runtime.rpcs
  }

  lemma ListsEntry(workers: seq<Worker>, endpoints: seq<string>, entry: Worker)
    requires Lists(workers, endpoints)
    ensures
      var e := TrimSpace(entry.rpc.endpoint);
      Lists(workers + [entry], if IsReady(entry) && e !in endpoints then endpoints + [e] else endpoints)
  {
    hide TrimSpace;
    TrimTwice(entry.rpc.endpoint);
    assert forall e :: Offers(workers + [entry], e) <==>
      Offers(workers, e) || (IsReady(entry) && TrimSpace(entry.rpc.endpoint) == e);
  }
}
