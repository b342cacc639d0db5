/** Planning a distributed generation on the RPC pool, and the two checks its plan and its result must pass. */
module RpcPlan {
  import opened Finite
  import opened Text
  import Jobs
  import opened RpcPool

  datatype Install = Install(nodeId: string, generateReady: bool)

  datatype Availability =
    | Unavailable
    | Available(installs: seq<Install>, installedOn: set<string>, generatableOn: set<string>)

  /** What the planner reads: the pool, the health records before and after probing, which endpoints a probe
      reaches, where the model is, and which workers have active jobs. */
  datatype View = View(
    workers: seq<Worker>,
    health: seq<HealthRecord>,
    healthAfter: seq<HealthRecord>,
    reachable: set<string>,
    model: Availability,
    busy: set<string>)

  datatype Blocker =
    | NoneReachable | NoEndpoints | NoModel | SelectWorker | NotInstalled | CannotGenerate | NoneSchedulable

  datatype HealthStatus = Unchecked | IsQuarantined | Failed | Reached

  datatype Backend = Backend(nodeId: string, nodeName: string, runtime: string, endpoint: string, status: HealthStatus)

  datatype Plan = Plan(
    modelId: string,
    coordinator: string,
    executable: bool,
    blockers: seq<Blocker>,
    endpoints: seq<string>,
    backends: seq<Backend>,
    checked: bool)

  // ----- which endpoints are eligible -----

  /** The worker an endpoint is attributed to: the first pool entry that names it. */
  function OwnerOf(workers: seq<Worker>, endpoint: string): string {
    if workers == [] then ""
    else if TrimSpace(workers[0].rpc.endpoint) == endpoint then workers[0].nodeId
    else OwnerOf(workers[1..], endpoint)
  }

  predicate Excluded(view: View, coordinator: string, endpoint: string) {
    var owner := OwnerOf(view.workers, endpoint);
    (coordinator != "" && owner == coordinator) || (owner != "" && owner in view.busy)
  }

  ghost predicate Checks(view: View, checkHealth: bool) {
    checkHealth && exists e :: Offers(view.workers, e)
  }

  /** The health records the plan is ranked by. */
  function Records(view: View, checked: bool): Health {
    ByEndpoint(if checked then view.healthAfter else view.health)
  }

  /** Offered by the pool, not quarantined, reached if probed, and neither on the coordinator nor on a busy worker. */
  ghost predicate Eligible(view: View, checked: bool, coordinator: string, endpoint: string) {
    IsOffered(view, checked, endpoint) && !Excluded(view, coordinator, endpoint)
  }

  ghost predicate IsOffered(view: View, checked: bool, endpoint: string) {
    && Offers(view.workers, endpoint)
    && !Quarantined(Records(view, checked), endpoint)
    && (checked ==> endpoint in view.reachable)
  }

  function FirstReady(installs: seq<Install>): string {
    if installs == [] then ""
    else if installs[0].generateReady then installs[0].nodeId
    else FirstReady(installs[1..])
  }

  function Coordinator(view: View, nodeId: string): string
    requires view.model.Available?
  {
    if Blank(nodeId) then FirstReady(view.model.installs) else TrimSpace(nodeId)
  }

  predicate CanCoordinate(model: Availability, coordinator: string) {
    model.Available? && coordinator != "" && coordinator in model.installedOn && coordinator in model.generatableOn
  }

  /** The model is in the catalog, and installed on the worker, which can generate with it. */
  predicate HasModel(model: Availability, nodeId: string) {
    model.Available? && nodeId != "" && nodeId in model.installedOn * model.generatableOn
  }

  /** In a pool listed by name, no entry that announces the endpoint comes before its owner's. */
  lemma {:induction false} OwnerIsFirstByName(workers: seq<Worker>, w: Worker) returns (owner: Worker)
    requires IsListed(workers) && w in workers
    ensures owner in workers && owner.nodeId == OwnerOf(workers, TrimSpace(w.rpc.endpoint))
    ensures TrimSpace(owner.rpc.endpoint) == TrimSpace(w.rpc.endpoint) && !ListsBefore(w, owner)
    ensures !StringLess(w.nodeName, owner.nodeName)
  {
    hide TrimSpace, StringLess;
    assert workers == [workers[0]] + workers[1..];
    if TrimSpace(workers[0].rpc.endpoint) == TrimSpace(w.rpc.endpoint) {
      owner := workers[0];
      var k :| 0 <= k < |workers| && workers[k] == w;
      StringLessIsTotal(w.nodeName, w.nodeName);
      if k == 0 {
        StringLessIsTotal(w.rpc.endpoint, w.rpc.endpoint);
      }
    } else {
      owner := OwnerIsFirstByName(workers[1..], w);
    }
  }

  // ----- the operations -----

  /** Attempts a connection to each endpoint; the ready ones keep their order. */
  method Probe(endpoints: seq<string>, reachable: set<string>) returns (ready: seq<string>)
    ensures forall e :: e in ready <==> e in endpoints && e in reachable
  {
    ready := [];
    for i := 0 to |endpoints|
      invariant forall e :: e in ready <==> e in endpoints[..i] && e in reachable
    {
      assert endpoints[..i + 1] == endpoints[..i] + [endpoints[i]];
      if endpoints[i] in reachable {
        ready := ready + [endpoints[i]];
      }
    }
    assert endpoints[..|endpoints|] == endpoints;
  }

  /** Of `offered` those that are not excluded, in the same order, and no more than the cap. */
  ghost predicate IsSchedule(view: View, coordinator: string, health: Health, offered: seq<string>, out: seq<string>) {
    && Ascends(health, out) && |out| <= MAX_ENDPOINTS
    && (forall e :: e in out ==> e in offered && !Excluded(view, coordinator, e))
    && (forall e :: e in offered && !Excluded(view, coordinator, e) && e !in out ==>
          |out| == MAX_ENDPOINTS && RanksAfter(health, e, out))
  }

  predicate RanksAfter(health: Health, endpoint: string, out: seq<string>) {
    forall i :: 0 <= i < |out| ==> Before(health, out[i], endpoint)
  }

  method Schedule(view: View, coordinator: string, ghost health: Health, offered: seq<string>)
    returns (out: seq<string>)
    requires Ascends(health, offered) && IsClean(offered)
    ensures IsSchedule(view, coordinator, health, offered, out)
  {
    hide Before, Excluded, TrimSpace, Clean, RanksAfter;
    CleanKeepsClean(offered);
    var clean := CleanEndpoints(offered);
    hide IsClean;
    var kept: seq<string> := [];
    for i := 0 to |offered|
      invariant Ascends(health, kept)
      invariant forall e :: e in kept <==> e in offered[..i] && !Excluded(view, coordinator, e)
    {
      assert offered[..i + 1] == offered[..i] + [offered[i]];
      if !Excluded(view, coordinator, clean[i]) {
        forall k | 0 <= k < |kept| ensures Before(health, kept[k], offered[i]) {
          assert kept[k] in offered[..i];
        }
        kept := kept + [clean[i]];
      }
    }
    assert offered[..|offered|] == offered;
    out := if |kept| > MAX_ENDPOINTS then kept[..MAX_ENDPOINTS] else kept;
    CapKeepsBest(health, kept);
  }

  /** Cutting an ascending list drops only endpoints that rank after all that stay. */
  lemma CapKeepsBest(health: Health, kept: seq<string>)
    requires Ascends(health, kept)
    ensures
      var out := if |kept| > MAX_ENDPOINTS then kept[..MAX_ENDPOINTS] else kept;
      && Ascends(health, out)
      && (forall e :: e in out ==> e in kept)
      && (forall e :: e in kept && e !in out ==> |out| == MAX_ENDPOINTS && RanksAfter(health, e, out))
  {
    hide Before;
    if |kept| > MAX_ENDPOINTS {
      var out := kept[..MAX_ENDPOINTS];
      forall k | 0 <= k < MAX_ENDPOINTS ensures kept[k] in out {
        assert out[k] == kept[k];
      }
      forall e | e in kept && e !in out ensures RanksAfter(health, e, out) {
        var k :| 0 <= k < |kept| && kept[k] == e;
        assert k >= MAX_ENDPOINTS;
      }
    }
  }

  function BackendOf(view: View, checked: bool, w: Worker): Backend {
    var endpoint := TrimSpace(w.rpc.endpoint);
    var status :=
      if checked then (if endpoint in view.reachable then Reached else Failed)
      else if Quarantined(ByEndpoint(view.health), endpoint) then IsQuarantined
      else Unchecked;
    Backend(w.nodeId, w.nodeName, w.runtime, endpoint, status)
  }

  method Backends(view: View, checked: bool) returns (backends: seq<Backend>)
    ensures forall b :: b in backends <==>
      exists w :: w in view.workers && IsReady(w) && b == BackendOf(view, checked, w)
  {
    hide IsReady, BackendOf;
    backends := [];
    for i := 0 to |view.workers|
      invariant forall b :: b in backends <==>
        exists w :: w in view.workers[..i] && IsReady(w) && b == BackendOf(view, checked, w)
    {
      assert view.workers[..i + 1] == view.workers[..i] + [view.workers[i]];
      if IsReady(view.workers[i]) {
        backends := backends + [BackendOf(view, checked, view.workers[i])];
      }
    }
    assert view.workers[..|view.workers|] == view.workers;
  }

  method ChooseCoordinator(view: View, nodeId: string) returns (coordinator: string)
    requires view.model.Available?
    ensures coordinator == Coordinator(view, nodeId)
  {
    coordinator := TrimSpace(nodeId);
    if coordinator == "" {
      var installs := view.model.installs;
      for i := 0 to |installs|
        invariant FirstReady(installs) == FirstReady(installs[i..])
        invariant coordinator == ""
      {
        if installs[i].generateReady {
          return installs[i].nodeId;
        }
      }
    }
  }

  /** The outcome of planning: executable exactly when a worker can coordinate and some endpoint is eligible; the
      endpoints are the best ranked eligible ones; the backends are the ready entries of the pool. */
  ghost predicate IsPlan(view: View, modelId: string, nodeId: string, checkHealth: bool, plan: Plan) {
    && plan.modelId == modelId && plan.checked == Checks(view, checkHealth)
    && (view.model.Available? ==> plan.coordinator == Coordinator(view, nodeId))
    && (plan.executable <==> CanCoordinate(view.model, plan.coordinator) && HasEligible(view, plan))
    && (view.model.Available? ==> IsBest(view, plan))
    && (forall b :: b in plan.backends <==>
      exists w :: w in view.workers && IsReady(w) && b == BackendOf(view, plan.checked, w))
  }

  ghost predicate HasEligible(view: View, plan: Plan) {
    exists e :: Eligible(view, plan.checked, plan.coordinator, e)
  }

  /** The endpoints are eligible and in ranking order, and an eligible endpoint is left out only when the plan is
      full of endpoints that rank before it. */
  ghost predicate IsBest(view: View, plan: Plan) {
    var health := Records(view, plan.checked);
    && Ascends(health, plan.endpoints) && IsClean(plan.endpoints) && |plan.endpoints| <= MAX_ENDPOINTS
    && (forall e :: e in plan.endpoints ==> Eligible(view, plan.checked, plan.coordinator, e))
    && (forall e :: Eligible(view, plan.checked, plan.coordinator, e) && e !in plan.endpoints ==>
          |plan.endpoints| == MAX_ENDPOINTS && RanksAfter(health, e, plan.endpoints))
  }

  method OfferedEndpoints(view: View, pool: seq<string>, checkHealth: bool)
    returns (offered: seq<string>, checked: bool, blockers: seq<Blocker>)
    requires IsClean(pool) && forall e :: e in pool <==> Offers(view.workers, e)
    ensures checked == Checks(view, checkHealth)
    ensures Ascends(Records(view, checked), offered) && IsClean(offered)
    ensures forall e :: e in offered <==>
      e in pool && !Quarantined(Records(view, checked), e) && (checked ==> e in view.reachable)
    ensures blockers != [] ==> offered == []
  {
    hide Before, Offers, Quarantined, TrimSpace, Clean;
    blockers, checked := [], false;
    CleanKeepsClean(pool);
    offered := UsableEndpoints(pool, ByEndpoint(view.health), false);
    if checkHealth && |pool| > 0 {
      assert Offers(view.workers, pool[0]);
      checked := true;
      var probed := UsableEndpoints(pool, ByEndpoint(view.health), true);
      var ready := Probe(probed, view.reachable);
      CleanSubset(pool, ready);
      offered := UsableEndpoints(ready, ByEndpoint(view.healthAfter), false);
      if |ready| == 0 {
        blockers := [NoneReachable];
        assert offered == [] by {
          if offered != [] { HasMember(offered); }
        }
      }
    } else if checkHealth {
      assert forall e :: e !in pool;
    }
    if |offered| == 0 && !checked {
      blockers := blockers + [NoEndpoints];
    }
  }

  lemma CleanSubset(pool: seq<string>, part: seq<string>)
    requires IsClean(pool) && forall e :: e in part ==> e in pool
    ensures forall e :: e in Clean(part) <==> e in part
  {
    hide TrimSpace, Clean;
    CleanIsClean(part);
  }

  method BuildPlan(view: View, pool: seq<string>, modelId: string, nodeId: string, checkHealth: bool)
    returns (plan: Plan)
    requires IsClean(pool) && forall e :: e in pool <==> Offers(view.workers, e)
    ensures IsPlan(view, modelId, nodeId, checkHealth, plan)
    ensures plan.executable <==> plan.endpoints != [] && HasModel(view.model, plan.coordinator)
  {
    hide Before, Offers, Quarantined, TrimSpace, Excluded, Coordinator, BackendOf, IsReady, Checks, Records;
    var offered, checked, blockers := OfferedEndpoints(view, pool, checkHealth);
    var backends := Backends(view, checked);
    if view.model.Unavailable? {
      return Plan(modelId, "", false, blockers + [NoModel], offered, backends, checked);
    }
    var coordinator := ChooseCoordinator(view, nodeId);
    if coordinator == "" {
      blockers := blockers + [SelectWorker];
    } else if coordinator !in view.model.installedOn {
      blockers := blockers + [NotInstalled];
    } else if coordinator !in view.model.generatableOn {
      blockers := blockers + [CannotGenerate];
    }
    assert blockers == [] ==> CanCoordinate(view.model, coordinator);
    assert blockers != [] ==> !CanCoordinate(view.model, coordinator) || offered == [];
    var endpoints := Schedule(view, coordinator, Records(view, checked), offered);
    if |endpoints| == 0 {
      blockers := blockers + [NoneSchedulable];
    }
    plan := Plan(modelId, coordinator, |blockers| == 0, blockers, endpoints, backends, checked);
    ScheduleIsBest(view, plan, offered);
    if endpoints != [] {
      assert Eligible(view, checked, coordinator, endpoints[0]);
    }
  }

  lemma ScheduleIsBest(view: View, plan: Plan, offered: seq<string>)
    requires forall e :: e in offered <==> IsOffered(view, plan.checked, e)
    requires IsSchedule(view, plan.coordinator, Records(view, plan.checked), offered, plan.endpoints)
      && IsClean(offered)
    ensures IsBest(view, plan)
  {
    hide Before, Offers, Quarantined, TrimSpace, Excluded, Records;
    AscendingIsDistinct(Records(view, plan.checked), plan.endpoints);
  }

  // ----- the plan a worker receives -----

  datatype ExecutionPlan = ExecutionPlan(
    id: string,
    protocol: string,
    protocolVersion: int,
    schemaVersion: int,
    mode: string,
    modelId: string,
    coordinator: string,
    endpoints: seq<string>,
    backends: seq<Backend>)

  ghost predicate IsExecutionPlan(plan: Plan, id: string, sent: ExecutionPlan) {
    && sent == ExecutionPlan(id, PROTOCOL, 1, 1, "llama.cpp-rpc", plan.modelId, plan.coordinator, plan.endpoints,
      sent.backends)
    && (forall b :: b in sent.backends <==> b in plan.backends && b.endpoint in plan.endpoints)
  }

  /** Keeps the backends whose endpoint was scheduled. */
  method ForJob(plan: Plan, id: string) returns (sent: ExecutionPlan)
    ensures IsExecutionPlan(plan, id, sent)
  {
    var backends: seq<Backend> := [];
    for i := 0 to |plan.backends|
      invariant forall b :: b in backends <==> b in plan.backends[..i] && b.endpoint in plan.endpoints
    {
      assert plan.backends[..i + 1] == plan.backends[..i] + [plan.backends[i]];
      if plan.backends[i].endpoint in plan.endpoints {
        backends := backends + [plan.backends[i]];
      }
    }
    assert plan.backends[..|plan.backends|] == plan.backends;
    sent := ExecutionPlan(id, PROTOCOL, 1, 1, "llama.cpp-rpc", plan.modelId, plan.coordinator, plan.endpoints,
      backends);
  }

  /** What the receiving worker demands of a plan. */
  predicate Accepts(plan: ExecutionPlan, modelId: string, coordinator: string) {
    && plan.protocol == PROTOCOL && plan.protocolVersion == 1 && plan.schemaVersion == 1
    && !Blank(plan.mode) && !Blank(plan.modelId) && (modelId != "" ==> plan.modelId == modelId)
    && !Blank(plan.coordinator) && (coordinator != "" ==> plan.coordinator == coordinator)
    && Clean(plan.endpoints) != [] && plan.backends != []
    && (forall b :: b in plan.backends ==>
          !Blank(b.endpoint) && TrimSpace(b.endpoint) in Clean(plan.endpoints) && !Blank(b.nodeId))
  }

  method ValidatePlan(plan: ExecutionPlan, modelId: string, coordinator: string) returns (accepted: bool)
    ensures accepted == Accepts(plan, modelId, coordinator)
    ensures accepted <==> IsSoundPlan(plan, modelId, coordinator)
  {
    hide TrimSpace, Clean, IsSoundPlan;
    AcceptsMeans(plan, modelId, coordinator);
    TrimKeepsVisibleEnd(PROTOCOL);
    if Blank(plan.protocol) || plan.protocol != PROTOCOL || plan.protocolVersion != 1 || plan.schemaVersion != 1 {
      return false;
    }
    if Blank(plan.mode) || Blank(plan.modelId) || (modelId != "" && plan.modelId != modelId) {
      return false;
    }
    if Blank(plan.coordinator) || (coordinator != "" && plan.coordinator != coordinator) {
      return false;
    }
    var listed := CleanEndpoints(plan.endpoints);
    if |listed| == 0 || |plan.backends| == 0 {
      return false;
    }
    var endpointSet := set e | e in listed;
    for i := 0 to |plan.backends|
      invariant forall b :: b in plan.backends[..i] ==>
        !Blank(b.endpoint) && TrimSpace(b.endpoint) in Clean(plan.endpoints) && !Blank(b.nodeId)
    {
      assert plan.backends[..i + 1] == plan.backends[..i] + [plan.backends[i]];
      var backend := plan.backends[i];
      assert backend in plan.backends;
      var endpoint := TrimSpace(backend.endpoint);
      if endpoint == "" || endpoint !in endpointSet || Blank(backend.nodeId) {
        return false;
      }
    }
    assert plan.backends[..|plan.backends|] == plan.backends;
    accepted := true;
  }

  /** The plan is of this protocol's first version, for the model and coordinator that are asked for, if any; it names
      both, its mode, and some endpoint, and has a backend; and each backend is on a named worker, at an endpoint that
      the plan names. */
  predicate IsSoundPlan(plan: ExecutionPlan, modelId: string, coordinator: string) {
    && plan.protocol == "cmesh.distributed-rpc" && plan.protocolVersion == 1 && plan.schemaVersion == 1
    && Shows(plan.mode)
    && Shows(plan.modelId) && (modelId == "" || modelId == plan.modelId)
    && Shows(plan.coordinator) && (coordinator == "" || coordinator == plan.coordinator)
    && (exists i :: 0 <= i < |plan.endpoints| && Shows(plan.endpoints[i]))
    && |plan.backends| > 0
    && forall k :: 0 <= k < |plan.backends| ==>
         Shows(plan.backends[k].nodeId) && IsNamed(plan.endpoints, TrimSpace(plan.backends[k].endpoint))
  }

  lemma AcceptsMeans(plan: ExecutionPlan, modelId: string, coordinator: string)
    ensures Accepts(plan, modelId, coordinator) <==> IsSoundPlan(plan, modelId, coordinator)
  {
    hide TrimSpace, Shows, Clean;
    BlankMeans(plan.mode);
    BlankMeans(plan.modelId);
    BlankMeans(plan.coordinator);
    SomethingIsNamed(plan.endpoints);
    NamedMeans(plan.endpoints);
    forall k | 0 <= k < |plan.backends|
      ensures plan.backends[k] in plan.backends && (Blank(plan.backends[k].nodeId) <==> !Shows(plan.backends[k].nodeId))
    {
      BlankMeans(plan.backends[k].nodeId);
    }
  }

  /** The cleaned list is empty exactly when none of the endpoints shows. */
  lemma SomethingIsNamed(endpoints: seq<string>)
    ensures Clean(endpoints) != [] <==> exists i :: 0 <= i < |endpoints| && Shows(endpoints[i])
  {
    hide TrimSpace, Shows, Clean;
    NamedMeans(endpoints);
    forall i | 0 <= i < |endpoints| ensures Shows(endpoints[i]) <==> TrimSpace(endpoints[i]) in Clean(endpoints) {
      BlankMeans(endpoints[i]);
    }
    if Clean(endpoints) != [] {
      assert Clean(endpoints)[0] in Clean(endpoints);
    }
  }

  /** An executable plan is accepted by its worker exactly when the model and the coordinator have visible names and
      no ready worker of a scheduled endpoint has a blank one. Everything else the worker demands always holds. */
  lemma ExecutablePlanIsAccepted(
      view: View, modelId: string, nodeId: string, checkHealth: bool, plan: Plan, id: string, sent: ExecutionPlan)
    requires IsPlan(view, modelId, nodeId, checkHealth, plan) && plan.executable
    requires IsExecutionPlan(plan, id, sent)
    ensures Accepts(sent, modelId, plan.coordinator) <==>
      !Blank(modelId) && !Blank(plan.coordinator) && NamesScheduledWorkers(view, plan.endpoints)
  {
    hide Before, Excluded, Coordinator, Quarantined, Records, TrimSpace, Clean, Checks;
    CleanKeepsClean(plan.endpoints);
    var e :| Eligible(view, plan.checked, plan.coordinator, e);
    assert plan.endpoints != [];
    EveryEndpointHasBackend(view, modelId, nodeId, checkHealth, plan, plan.endpoints[0]);
    ModeIsVisible();
    forall b | b in sent.backends ensures !Blank(b.endpoint) && TrimSpace(b.endpoint) in plan.endpoints {
      assert b.endpoint in plan.endpoints;
    }
    BackendsAreNamed(view, modelId, nodeId, checkHealth, plan, id, sent);
  }

  /** The identifiers the manager mints for nodes. */
  predicate IsNodeId(id: string) {
    id == "node-unknown" || (|id| == 21 && id[..5] == "node-" && forall i :: 5 <= i < 21 ==>
      id[i] in "0123456789abcdef")
  }

  lemma NodeIdIsVisible(id: string)
    requires IsNodeId(id)
    ensures !Blank(id)
  {
    hide TrimSpace;
    assert !IsSpace(id[|id| - 1]);
    TrimKeepsVisibleEnd(id);
  }

  /** The view was read off nodes that joined through the manager: their entries, and where the model is installed. */
  ghost predicate IsReadOff(view: View, nodes: seq<PoolNode>) {
    && (forall n :: n in nodes ==> IsNodeId(n.id))
    && (forall w :: w in view.workers ==> InPool(nodes, w))
    && (view.model.Available? ==> forall id :: id in view.model.installedOn ==> exists n :: n in nodes && n.id == id)
  }

  /** So every executable plan of a catalog model, which has a name, is accepted by its worker. */
  lemma JoinedWorkersAccept(
    nodes: seq<PoolNode>, view: View, modelId: string, nodeId: string, checkHealth: bool, plan: Plan, id: string,
    sent: ExecutionPlan)
    requires IsReadOff(view, nodes) && !Blank(modelId)
    requires IsPlan(view, modelId, nodeId, checkHealth, plan) && plan.executable && IsExecutionPlan(plan, id, sent)
    ensures Accepts(sent, modelId, plan.coordinator)
  {
    hide IsBest, HasEligible, Checks, Coordinator, BackendOf, IsReady, TrimSpace, Blank, Accepts;
    ExecutablePlanIsAccepted(view, modelId, nodeId, checkHealth, plan, id, sent);
    forall n | n in nodes ensures !Blank(n.id) {
      NodeIdIsVisible(n.id);
    }
  }

  ghost predicate NamesScheduledWorkers(view: View, endpoints: seq<string>) {
    forall w :: w in view.workers && IsReady(w) && TrimSpace(w.rpc.endpoint) in endpoints ==> !Blank(w.nodeId)
  }

  lemma ModeIsVisible()
    ensures !Blank("llama.cpp-rpc")
  {
    TrimKeepsVisibleEnd("llama.cpp-rpc");
  }

  lemma EveryEndpointHasBackend(
      view: View, modelId: string, nodeId: string, checkHealth: bool, plan: Plan, endpoint: string)
    requires IsPlan(view, modelId, nodeId, checkHealth, plan) && plan.executable && endpoint in plan.endpoints
    ensures exists b :: b in plan.backends && b.endpoint == endpoint
  {
    hide Before, Excluded, Coordinator, Quarantined, Records, TrimSpace, Checks, IsReady, IsClean;
    assert Eligible(view, plan.checked, plan.coordinator, endpoint);
    var w :| w in view.workers && IsReady(w) && TrimSpace(w.rpc.endpoint) == endpoint;
    assert BackendOf(view, plan.checked, w) in plan.backends;
  }

  lemma BackendsAreNamed(
      view: View, modelId: string, nodeId: string, checkHealth: bool, plan: Plan, id: string, sent: ExecutionPlan)
    requires IsPlan(view, modelId, nodeId, checkHealth, plan) && IsExecutionPlan(plan, id, sent)
    ensures NamesScheduledWorkers(view, plan.endpoints) <==> forall b :: b in sent.backends ==> !Blank(b.nodeId)
  {
    hide Before, Excluded, Coordinator, Quarantined, Records, TrimSpace, Checks, IsReady, IsBest, Blank, HasEligible;
    forall w | w in view.workers && IsReady(w) && TrimSpace(w.rpc.endpoint) in plan.endpoints
      ensures BackendOf(view, plan.checked, w) in sent.backends
    {
      assert BackendOf(view, plan.checked, w) in plan.backends;
    }
    if NamesScheduledWorkers(view, plan.endpoints) {
      forall b | b in sent.backends ensures !Blank(b.nodeId) {
        var w :| w in view.workers && IsReady(w) && b == BackendOf(view, plan.checked, w);
      }
    }
  }

  /** An entry of the pool that can serve: its runtime and its endpoint are ready, and the endpoint has a name. */
  predicate Serves(w: Worker, e: string) {
    w.runtimeReady && w.rpc.ready && Shows(w.rpc.endpoint) && TrimSpace(w.rpc.endpoint) == e
  }

  /** Entry `k` of the pool is the first that names the endpoint. */
  predicate IsOwner(workers: seq<Worker>, e: string, k: int) {
    && 0 <= k < |workers| && TrimSpace(workers[k].rpc.endpoint) == e
    && forall n :: 0 <= n < k ==> TrimSpace(workers[n].rpc.endpoint) != e
  }

  lemma {:induction false} OwnerMeans(workers: seq<Worker>, e: string)
    ensures if exists k :: IsOwner(workers, e, k)
            then exists k :: IsOwner(workers, e, k) && OwnerOf(workers, e) == workers[k].nodeId
      else OwnerOf(workers, e) == ""
    ensures (exists w :: w in workers && TrimSpace(w.rpc.endpoint) == e) ==> exists k :: IsOwner(workers, e, k)
  {
    hide TrimSpace;
    if workers != [] {
      assert workers == [workers[0]] + workers[1..];
      if TrimSpace(workers[0].rpc.endpoint) == e {
        assert IsOwner(workers, e, 0);
      } else {
        OwnerMeans(workers[1..], e);
        forall k | IsOwner(workers[1..], e, k) ensures IsOwner(workers, e, k + 1) && workers[k + 1] == workers[1..][k] {
        }
        forall k | IsOwner(workers, e, k) ensures IsOwner(workers[1..], e, k - 1) {
          assert forall n :: 0 <= n < k - 1 ==> workers[1..][n] == workers[n + 1];
        }
      }
    }
  }

  /** Eligible means: some ready entry serves the endpoint; it is not set aside, by the records after the probes if
      there were any; it answered, if it was probed; and its owner is neither the coordinator nor a worker with
      active jobs. */
  lemma EligibleMeans(view: View, checked: bool, coordinator: string, e: string)
    ensures Eligible(view, checked, coordinator, e) <==>
      && (exists w :: w in view.workers && Serves(w, e))
      && !IsSetAside(ByEndpoint(if checked then view.healthAfter else view.health), e)
      && (checked ==> e in view.reachable)
      && (OwnerOf(view.workers, e) != "" ==>
            OwnerOf(view.workers, e) != coordinator && OwnerOf(view.workers, e) !in view.busy)
  {
    hide TrimSpace, Shows, OwnerOf, ByEndpoint;
    forall w | w in view.workers ensures Serves(w, e) <==> IsReady(w) && TrimSpace(w.rpc.endpoint) == e {
      BlankMeans(w.rpc.endpoint);
    }
  }

  /** What a backend says of its endpoint: whether it answered, if it was probed; and otherwise whether it is set
      aside. */
  lemma BackendMeans(view: View, checked: bool, w: Worker)
    ensures var b, e := BackendOf(view, checked, w), TrimSpace(w.rpc.endpoint);
      && b.nodeId == w.nodeId && b.nodeName == w.nodeName && b.runtime == w.runtime && b.endpoint == e
      && (checked ==> (b.status == Reached <==> e in view.reachable) && (b.status == Failed <==> e !in view.reachable))
      && (!checked ==> b.status == if IsSetAside(ByEndpoint(view.health), e) then IsQuarantined else Unchecked)
  {
    hide TrimSpace, ByEndpoint;
  }

  /** The coordinator is the worker asked for, or else the first that can generate. */
  lemma {:induction false} FirstReadyMeans(installs: seq<Install>)
    ensures FirstReady(installs) == ""
      || exists k :: IsFirstReady(installs, k) && FirstReady(installs) == installs[k].nodeId
    ensures forall k :: IsFirstReady(installs, k) ==> FirstReady(installs) == installs[k].nodeId
  {
    if installs != [] {
      if installs[0].generateReady {
        assert IsFirstReady(installs, 0);
      } else {
        FirstReadyMeans(installs[1..]);
        forall k | IsFirstReady(installs[1..], k)
          ensures IsFirstReady(installs, k + 1) && installs[k + 1] == installs[1..][k]
        {
        }
        forall k | IsFirstReady(installs, k) ensures IsFirstReady(installs[1..], k - 1) {
          assert forall n :: 0 <= n < k - 1 ==> installs[1..][n] == installs[n + 1];
        }
      }
    }
  }

  predicate IsFirstReady(installs: seq<Install>, k: int) {
    0 <= k < |installs| && installs[k].generateReady && forall n :: 0 <= n < k ==> !installs[n].generateReady
  }

  lemma CoordinatorMeans(view: View, nodeId: string)
    requires view.model.Available?
    ensures if Shows(nodeId) then IsTrimOf(Coordinator(view, nodeId), nodeId)
      else Coordinator(view, nodeId) == FirstReady(view.model.installs)
  {
    hide TrimSpace, Shows;
    BlankMeans(nodeId);
    TrimSpaceMeans(nodeId);
  }

  /** Health comes first: an endpoint that is down is in the plan only if every eligible one that is not down is, and
      one that is not up only if every eligible one that is up is. */
  lemma PlanPrefersHealthy(view: View, plan: Plan, e: string, x: string)
    requires IsBest(view, plan) && e in plan.endpoints && Eligible(view, plan.checked, plan.coordinator, x)
    requires var health := Records(view, plan.checked);
      (IsDown(health, e) && !IsDown(health, x)) || (!IsUp(health, e) && IsUp(health, x))
    ensures x in plan.endpoints
  {
    hide Before, Eligible, Records, TrimSpace;
    var health := Records(view, plan.checked);
    if x !in plan.endpoints {
      var i :| 0 <= i < |plan.endpoints| && plan.endpoints[i] == e;
      assert Before(health, plan.endpoints[i], x);
      BeforeMeans(health, e, x);
    }
  }

  // ----- where the backends are -----

  /** The eligible endpoints. */
  ghost function EligibleSet(view: View, checked: bool, coordinator: string): (out: set<string>)
    ensures forall e :: e in out <==> Eligible(view, checked, coordinator, e)
  {
    var out := set w | w in view.workers && Eligible(view, checked, coordinator, TrimSpace(w.rpc.endpoint))
                       :: TrimSpace(w.rpc.endpoint);
    assert forall e :: Eligible(view, checked, coordinator, e) ==> e in out by {
      forall e | Eligible(view, checked, coordinator, e) ensures e in out {
        var w :| w in view.workers && IsReady(w) && TrimSpace(w.rpc.endpoint) == e;
      }
    }
    out
  }

  /** The eligible endpoints that rank before `endpoint`. */
  ghost function Ahead(view: View, checked: bool, coordinator: string, endpoint: string): set<string> {
    set x | x in EligibleSet(view, checked, coordinator) && Before(Records(view, checked), x, endpoint)
  }

  /** The endpoint makes it into the plan: it is eligible and fewer than eight eligible ones rank before it. */
  ghost predicate Kept(view: View, checked: bool, coordinator: string, endpoint: string) {
    Eligible(view, checked, coordinator, endpoint) && |Ahead(view, checked, coordinator, endpoint)| < 8
  }

  /** The plan's endpoints are exactly those kept, a condition on what the planner reads. */
  lemma PlanKeepsBest(view: View, plan: Plan, endpoint: string)
    requires IsBest(view, plan)
    ensures endpoint in plan.endpoints <==> Kept(view, plan.checked, plan.coordinator, endpoint)
  {
    hide Before, Eligible, Records, TrimSpace;
    var health, ahead := Records(view, plan.checked), Ahead(view, plan.checked, plan.coordinator, endpoint);
    if endpoint in plan.endpoints {
      var i :| 0 <= i < |plan.endpoints| && plan.endpoints[i] == endpoint;
      KeptAhead(view, plan, i, ahead);
    } else if Eligible(view, plan.checked, plan.coordinator, endpoint) {
      var all := set x | x in plan.endpoints;
      DistinctSize(plan.endpoints);
      forall x | x in all ensures x in ahead {
        var k :| 0 <= k < |plan.endpoints| && plan.endpoints[k] == x;
        assert Before(health, plan.endpoints[k], endpoint);
      }
      SubsetSize(all, ahead);
    }
  }

  lemma KeptAhead(view: View, plan: Plan, i: nat, ahead: set<string>)
    requires IsBest(view, plan) && i < |plan.endpoints|
    requires ahead == Ahead(view, plan.checked, plan.coordinator, plan.endpoints[i])
    ensures |ahead| < MAX_ENDPOINTS
  {
    hide Before, Eligible, Records, TrimSpace;
    var health, front := Records(view, plan.checked), plan.endpoints[..i];
    forall x | x in ahead ensures x in front {
      RankingOrderIsStrict(health, x, plan.endpoints[i], x);
      assert x in plan.endpoints;
      var k :| 0 <= k < |plan.endpoints| && plan.endpoints[k] == x;
      RankingOrderIsStrict(health, plan.endpoints[i], x, plan.endpoints[i]);
      assert k < i && front[k] == x;
    }
    DistinctSize(front);
    SubsetSize(ahead, set x | x in front);
  }

  /** The worker is the coordinator, or has active jobs. */
  predicate IsTaken(view: View, coordinator: string, nodeId: string) {
    nodeId != "" && (nodeId == coordinator || nodeId in view.busy)
  }

  /** A ready entry of a taken worker has an endpoint that makes it into the plan: another worker announces the
      endpoint first, and is neither the coordinator nor busy. */
  ghost predicate LetsTakenIn(view: View, checked: bool, coordinator: string) {
    exists w :: w in view.workers && IsReady(w) && IsTaken(view, coordinator, w.nodeId)
      && Kept(view, checked, coordinator, TrimSpace(w.rpc.endpoint))
  }

  /** The backends a worker receives avoid the coordinator and the busy workers if and only if no endpoint of theirs
      is kept; and an endpoint of theirs is kept only when another worker announces it too. */
  lemma PlanAvoidsTakenWorkers(
    view: View, modelId: string, nodeId: string, checkHealth: bool, plan: Plan, id: string, sent: ExecutionPlan)
    requires IsPlan(view, modelId, nodeId, checkHealth, plan) && plan.executable && IsExecutionPlan(plan, id, sent)
    ensures (forall b :: b in sent.backends ==> !IsTaken(view, plan.coordinator, b.nodeId))
      <==> !LetsTakenIn(view, plan.checked, plan.coordinator)
  {
    hide Before, Coordinator, Quarantined, Records, TrimSpace, Checks, OwnerOf, IsReady, IsClean, Ascends, Kept, IsBest;
    hide IsTaken, HasEligible;
    if b :| b in sent.backends && IsTaken(view, plan.coordinator, b.nodeId) {
      var w :| w in view.workers && IsReady(w) && b == BackendOf(view, plan.checked, w);
      PlanKeepsBest(view, plan, b.endpoint);
    }
    if LetsTakenIn(view, plan.checked, plan.coordinator) {
      var w :| w in view.workers && IsReady(w) && IsTaken(view, plan.coordinator, w.nodeId)
        && Kept(view, plan.checked, plan.coordinator, TrimSpace(w.rpc.endpoint));
      PlanKeepsBest(view, plan, TrimSpace(w.rpc.endpoint));
      assert BackendOf(view, plan.checked, w) in plan.backends;
    }
  }

  /** Each ready endpoint is announced by one worker only. */
  ghost predicate EndpointsHaveOneOwner(workers: seq<Worker>) {
    forall v, w :: v in workers && w in workers && TrimSpace(v.rpc.endpoint) == TrimSpace(w.rpc.endpoint) ==>
      v.nodeId == w.nodeId
  }

  /** One worker per endpoint is enough. */
  lemma OneOwnerIsEnough(view: View, checked: bool, coordinator: string)
    requires EndpointsHaveOneOwner(view.workers)
    ensures !LetsTakenIn(view, checked, coordinator)
  {
    hide Before, Quarantined, Records, TrimSpace, OwnerOf, IsReady, Ahead;
    forall w | w in view.workers && IsReady(w) && IsTaken(view, coordinator, w.nodeId)
      ensures !Eligible(view, checked, coordinator, TrimSpace(w.rpc.endpoint))
    {
      OwnerIsOwner(view.workers, w);
    }
  }

  lemma {:induction false} OwnerIsOwner(workers: seq<Worker>, w: Worker)
    requires w in workers && EndpointsHaveOneOwner(workers)
    ensures OwnerOf(workers, TrimSpace(w.rpc.endpoint)) == w.nodeId
  {
    hide TrimSpace;
    assert workers == [workers[0]] + workers[1..];
    if TrimSpace(workers[0].rpc.endpoint) != TrimSpace(w.rpc.endpoint) {
      OwnerIsOwner(workers[1..], w);
    }
  }

  /** A plan whose coordinator is its own backend: two workers announce one endpoint, and the one that is not the
      coordinator is listed first. */
  lemma CoordinatorCanBeBackend() returns (view: View, plan: Plan, sent: ExecutionPlan)
    ensures IsPlan(view, "m", "b", false, plan) && plan.executable && IsExecutionPlan(plan, "x", sent)
    ensures exists k :: k in sent.backends && k.nodeId == plan.coordinator
  {
    var first := Worker("a", "a", "llama.cpp", true, Rpc("h:1", true));
    var second := first.(nodeId := "b", nodeName := "b");
    view := View([first, second], [], [], {}, Available([Install("b", true)], {"b"}, {"b"}), {});
    var backends := [BackendOf(view, false, first), BackendOf(view, false, second)];
    plan := Plan("m", "b", true, [], ["h:1"], backends, false);
    sent := ExecutionPlan("x", PROTOCOL, 1, 1, "llama.cpp-rpc", "m", "b", ["h:1"], backends);
    TrimSpaceTrims("h:1");
    TrimSpaceTrims("b");
    OnlyEligible(view, first, second);
    assert Eligible(view, false, "b", "h:1");
    assert HasEligible(view, plan);
    forall k ensures k in backends <==> exists w :: w in view.workers && IsReady(w) && k == BackendOf(view, false, w) {
      assert first in view.workers && second in view.workers;
      assert forall w :: w in view.workers <==> w == first || w == second;
    }
    assert backends[1] in sent.backends && backends[1].nodeId == "b";
  }

  lemma OnlyEligible(view: View, first: Worker, second: Worker)
    requires first.nodeId == "a" && first.runtimeReady && first.rpc == Rpc("h:1", true)
    requires second == first.(nodeId := "b", nodeName := "b")
    requires view.workers == [first, second] && view.health == [] && view.busy == {}
    ensures forall e :: Eligible(view, false, "b", e) <==> e == "h:1"
  {
    TrimSpaceTrims("h:1");
    assert view.workers[0] == first;
    assert first in view.workers && IsReady(first);
    assert forall w :: w in view.workers ==> w == first || w == second;
  }

  // ----- the result -----

  datatype ExecutionResult = ExecutionResult(
    protocol: string,
    protocolVersion: int,
    schemaVersion: int,
    planId: string,
    kind: string,
    modelId: string,
    output: string,
    endpoints: seq<string>)

  predicate AcceptsResult(result: ExecutionResult, plan: ExecutionPlan) {
    && result.protocol == PROTOCOL && result.protocolVersion == 1 && result.schemaVersion == 1
    && !Blank(result.kind) && !Blank(result.modelId) && !Blank(result.output)
    && Clean(result.endpoints) != []
    && (plan.id != "" && result.planId != "" ==> result.planId == plan.id)
    && (plan.modelId != "" ==> result.modelId == plan.modelId)
    && (forall e :: e in Clean(result.endpoints) ==> e in Clean(plan.endpoints))
  }

  method ValidateResult(result: ExecutionResult, plan: ExecutionPlan) returns (accepted: bool)
    ensures accepted == AcceptsResult(result, plan)
    ensures accepted <==> IsSoundResult(result, plan)
  {
    hide TrimSpace, Clean, IsSoundResult;
    ResultMeans(result, plan);
    if result.protocol != PROTOCOL || result.protocolVersion != 1 || result.schemaVersion != 1 {
      return false;
    }
    if Blank(result.kind) || Blank(result.modelId) || Blank(result.output) {
      return false;
    }
    var reported := CleanEndpoints(result.endpoints);
    if |reported| == 0 || (plan.id != "" && result.planId != "" && result.planId != plan.id) {
      return false;
    }
    if plan.modelId != "" && result.modelId != plan.modelId {
      return false;
    }
    var planned := CleanEndpoints(plan.endpoints);
    for i := 0 to |reported|
      invariant forall e :: e in reported[..i] ==> e in planned
    {
      assert reported[..i + 1] == reported[..i] + [reported[i]];
      if reported[i] !in planned {
        return false;
      }
    }
    assert reported[..|reported|] == reported;
    accepted := true;
  }

  /** The result is of this protocol's first version, for the plan's model and, as far as both say, of this plan; it
      names its kind, its model, some output and some endpoint, and no endpoint that the plan does not name. */
  predicate IsSoundResult(result: ExecutionResult, plan: ExecutionPlan) {
    && result.protocol == "cmesh.distributed-rpc" && result.protocolVersion == 1 && result.schemaVersion == 1
    && Shows(result.kind) && Shows(result.modelId) && Shows(result.output)
    && (result.planId == plan.id || result.planId == "" || plan.id == "")
    && (result.modelId == plan.modelId || plan.modelId == "")
    && (exists i :: 0 <= i < |result.endpoints| && Shows(result.endpoints[i]))
    && forall i :: 0 <= i < |result.endpoints| && Shows(result.endpoints[i]) ==>
         IsNamed(plan.endpoints, TrimSpace(result.endpoints[i]))
  }

  lemma ResultMeans(result: ExecutionResult, plan: ExecutionPlan)
    ensures AcceptsResult(result, plan) <==> IsSoundResult(result, plan)
  {
    hide TrimSpace, Shows, Clean;
    BlankMeans(result.kind);
    BlankMeans(result.modelId);
    BlankMeans(result.output);
    SomethingIsNamed(result.endpoints);
    NamedMeans(result.endpoints);
    NamedMeans(plan.endpoints);
    forall i | 0 <= i < |result.endpoints|
      ensures Shows(result.endpoints[i]) <==> TrimSpace(result.endpoints[i]) in Clean(result.endpoints)
    {
      BlankMeans(result.endpoints[i]);
    }
  }

  /** What the worker reports after a run: the plan's endpoints, cleaned. */
  function Report(plan: ExecutionPlan, modelId: string, output: string): ExecutionResult {
    ExecutionResult(PROTOCOL, 1, 1, plan.id, Jobs.JOB_GENERATE_RPC, modelId, output, Clean(plan.endpoints))
  }

  /** The report on an accepted plan for a named model passes the result check exactly when there is some output. */
  lemma ReportIsAccepted(plan: ExecutionPlan, modelId: string, nodeId: string, output: string)
    requires Accepts(plan, modelId, nodeId) && modelId != ""
    ensures AcceptsResult(Report(plan, modelId, output), plan) <==> !Blank(output)
  {
    hide TrimSpace, Clean;
    CleanIsClean(plan.endpoints);
    CleanKeepsClean(Clean(plan.endpoints));
    TrimKeepsVisibleEnd(Jobs.JOB_GENERATE_RPC);
  }
}
