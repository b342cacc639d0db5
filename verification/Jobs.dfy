/** Jobs, workers and the pure rules about them. Times are nanoseconds, 0 the zero time. */
module Jobs {
  import Cdip

  const DEFAULT_MAX_ATTEMPTS := 3
  const DEFAULT_WORKER_JOB_SLOTS := 1
  const HEARTBEAT_TIMEOUT := 30_000_000_000

  const JOB_DELETE := "model.delete"
  const JOB_GENERATE := "model.generate"
  const JOB_GENERATE_RPC := "model.generate.distributed_rpc"
  const JOB_DISTRIBUTED := "model.generate.distributed"
  const JOB_STAGE := "model.generate.distributed.stage"

  datatype Status = Queued | Scheduled | Running | Succeeded | Failed | Canceled

  datatype Requirements = Requirements(
    cpuCores: int, memoryBytes: nat, diskBytes: nat, gpuRequired: bool, vramBytes: nat)

  /** The layer assignment a stage job carries. */
  datatype StageAssignment = StageAssignment(
    index: int, nodeId: string, nodeName: string, layerStart: int, layerEnd: int, layers: int)

  datatype StageInput = StageInput(
    parentJobId: string,
    modelId: string,
    stage: StageAssignment,
    shard: Cdip.ModelShard,
    upstreamNodeId: string,
    downstreamNodeId: string)

  /** A job's input; encoding a stage input to JSON and back is the identity here. */
  datatype Input = RawInput(text: string) | ForStage(stage: StageInput)

  /** A job's result text; the two structured notes are JSON on the wire. */
  datatype Result =
    | RawResult(text: string)
    | StageNote(state: Cdip.StageState, detail: string, at: int)
    | ProgressNote(caption: string, at: int)

  const NO_RESULT := RawResult("")

  datatype Job = Job(
    id: string,
    kind: string,
    status: Status,
    requestedBy: string,
    assignedTo: string,
    input: Input,
    requirements: Requirements,
    result: Result,
    error: string,
    attempts: int,
    maxAttempts: int,
    lastFailure: string,
    cdipState: Cdip.StageState,
    cdipParent: string,
    cdipIndex: int,
    createdAt: int,
    updatedAt: int,
    startedAt: int,
    finishedAt: int)
  {
    predicate IsActive() { status in {Scheduled, Running} }
    predicate IsTerminal() { status in {Succeeded, Failed, Canceled} }
    predicate IsWaiting() { status == Queued && assignedTo == "" }
    predicate ActiveOn(w: string) { assignedTo == w && IsActive() }
  }

  datatype CreateRequest = CreateRequest(
    kind: string,
    input: Input,
    requestedBy: string,
    assignedTo: string,
    requirements: Requirements,
    maxAttempts: int,
    noAutoAssign: bool,
    cdipState: Cdip.StageState,
    cdipParent: string,
    cdipIndex: int)

  function NormalizeMaxAttempts(value: int): int {
    if value <= 0 then DEFAULT_MAX_ATTEMPTS else value
  }

  /** The job a create request starts from, before any placement. */
  function NewJob(id: string, req: CreateRequest, now: int): Job {
    Job(id, req.kind, Queued, req.requestedBy, "", req.input, req.requirements, NO_RESULT, "",
        0, NormalizeMaxAttempts(req.maxAttempts), "", req.cdipState, req.cdipParent, req.cdipIndex,
        now, now, 0, 0)
  }

  datatype Role = Manager | Worker
  datatype NodeStatus = Joining | Online | Offline | Draining

  datatype Gpu = Gpu(allowedVramBytes: nat, computeCompatible: bool)

  datatype Resources = Resources(
    coresAllowed: int,
    memoryAllowed: nat,
    gpus: seq<Gpu>,
    storageAllowed: nat,
    storageFree: nat,
    jobSlots: int)

  datatype Node = Node(
    id: string,
    name: string,
    role: Role,
    status: NodeStatus,
    endpoint: string,
    resources: Resources,
    joinedAt: int,
    updatedAt: int)

  function Slots(node: Node): (n: int)
    ensures n > 0
  {
    if node.resources.jobSlots > 0 then node.resources.jobSlots else DEFAULT_WORKER_JOB_SLOTS
  }

  predicate GpuServes(gpu: Gpu, req: Requirements) {
    gpu.computeCompatible && (req.vramBytes == 0 || gpu.allowedVramBytes >= req.vramBytes)
  }

  /** Zero requirements are not checked, and a worker that reports no free space is judged by its allowance. */
  predicate MeetsRequirements(node: Node, req: Requirements) {
    && !(req.cpuCores > 0 && node.resources.coresAllowed < req.cpuCores)
    && !(req.memoryBytes > 0 && node.resources.memoryAllowed < req.memoryBytes)
    && !(req.diskBytes > 0 && node.resources.storageAllowed < req.diskBytes)
    && !(req.diskBytes > 0 && 0 < node.resources.storageFree < req.diskBytes)
    && ((!req.gpuRequired && req.vramBytes == 0)
        || exists i :: 0 <= i < |node.resources.gpus| && GpuServes(node.resources.gpus[i], req))
  }

  /** A worker whose last heartbeat is older than the timeout. */
  predicate Stale(node: Node, now: int) {
    node.role == Worker && node.status == Online && now - node.updatedAt > HEARTBEAT_TIMEOUT
  }

  function DeriveStatus(node: Node, now: int): Node {
    if Stale(node, now) then node.(status := Offline) else node
  }

  /** An online worker, heard from recently, that meets the requirements. */
  predicate Serves(node: Node, req: Requirements, now: int) {
    var node := DeriveStatus(node, now);
    node.role == Worker && node.status == Online && MeetsRequirements(node, req)
  }
}
