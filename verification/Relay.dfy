/** The activation relay: bounded first-in first-out streams, and the decode loop that sends one frame through
    each of them and reads one back. */
module Relay {
  import opened Options
  import opened Text

  datatype Chunk = Chunk(
    parentJobId: string,
    stageJobId: string,
    sequence: nat,
    contentType: string,
    encoding: string,
    shape: seq<nat>,
    dtype: string,
    payloadBytes: nat,
    checksum: string)

  datatype Frame = Frame(header: Chunk, payload: seq<nat>)
  {
    predicate Valid() {
      && !Blank(header.parentJobId) && !Blank(header.stageJobId) && !Blank(header.contentType)
      && header.payloadBytes != 0
      && |payload| == header.payloadBytes
    }
  }

  /** The frame names its job, its stage and its content type, and holds the bytes it announces, at least one. */
  predicate IsComplete(f: Frame) {
    && Shows(f.header.parentJobId) && Shows(f.header.stageJobId) && Shows(f.header.contentType)
    && |f.payload| == f.header.payloadBytes > 0
  }

  lemma CompleteMeans(f: Frame)
    ensures f.Valid() <==> IsComplete(f)
  {
    hide TrimSpace, Shows;
    BlankMeans(f.header.parentJobId);
    BlankMeans(f.header.stageJobId);
    BlankMeans(f.header.contentType);
  }

  datatype SendOutcome = Delivered | Refused | Waiting

  datatype StreamId = StreamId(parentJobId: string, stageJobId: string)

  function QueueOf(streams: map<StreamId, seq<Frame>>, id: StreamId): seq<Frame> {
    if id in streams then streams[id] else []
  }

  class MemoryTransport {
    const buffer: nat
    var streams: map<StreamId, seq<Frame>>

    ghost predicate Valid()
      reads this
    {
      && buffer >= 1
      && forall id :: id in streams ==> |streams[id]| <= buffer && forall f :: f in streams[id] ==> f.Valid()
    }

    ghost function Queue(id: StreamId): seq<Frame>
      reads this
    {
      QueueOf(streams, id)
    }

    constructor (size: int)
      ensures Valid() && streams == map[] && buffer == if size < 1 then 1 else size
    {
      buffer := if size < 1 then 1 else size;
      streams := map[];
    }

    /** Opening a stream for reading or writing creates it when it is new. */
    method Open(id: StreamId) returns (ok: bool)
      requires Valid()
      modifies this
      ensures Valid() && (ok <==> id.parentJobId != "" && id.stageJobId != "")
      ensures ok ==> id in streams
      ensures forall other :: QueueOf(streams, other) == QueueOf(old(streams), other)
      ensures streams == if ok && id !in old(streams) then old(streams)[id := []] else old(streams)
    {
      ok := id.parentJobId != "" && id.stageJobId != "";
      if ok && id !in streams {
        streams := streams[id := []];
      }
    }

    /** Appends a valid frame. On a full stream the sender waits, and nothing has changed yet: it goes on when there is
        room, or fails when its context ends. */
    method Send(id: StreamId, frame: Frame) returns (outcome: SendOutcome)
      requires Valid() && id in streams
      modifies this
      ensures Valid()
      ensures outcome == if !frame.Valid() then Refused else if |old(streams)[id]| < buffer then Delivered else Waiting
      ensures outcome == Refused <==> !IsComplete(frame)
      ensures streams == if outcome == Delivered then old(streams)[id := old(streams)[id] + [frame]] else old(streams)
    {
      CompleteMeans(frame);
      if !frame.Valid() {
        return Refused;
      }
      if |streams[id]| >= buffer {
        return Waiting;
      }
      streams := streams[id := streams[id] + [frame]];
      return Delivered;
    }

    /** Takes the oldest frame. On an empty stream the reader waits, and nothing has changed yet. */
    method Receive(id: StreamId) returns (frame: Option<Frame>)
      requires Valid() && id in streams
      modifies this
      ensures Valid() && (frame.None? <==> old(streams)[id] == [])
      ensures frame.Some? ==> frame.value == old(streams)[id][0] && frame.value.Valid()
      ensures streams == if frame.Some? then old(streams)[id := old(streams)[id][1..]] else old(streams)
    {
      if streams[id] == [] {
        return None;
      }
      frame := Some(streams[id][0]);
      streams := streams[id := streams[id][1..]];
    }
  }

  // ----- one decode step -----

  /** A stage as the decode loop sees it. */
  datatype StageRef = StageRef(id: string, assignedTo: string)

  function Digit(d: nat): char
    requires d < 10
  {
    "0123456789"[d]
  }

  function Decimal(n: nat): string {
    if n < 10 then [Digit(n)] else Decimal(n / 10) + [Digit(n % 10)]
  }

  function Checksum(step: nat, i: nat, upstream: string, downstream: string): string {
    "mock:" + Decimal(step) + ":" + Decimal(i) + ":" + upstream + ":" + downstream
  }

  const CONTENT_TYPE := "application/vnd.cmesh.activation+binary"

  function Stream(parent: string, stages: seq<StageRef>, i: nat): StreamId
    requires i < |stages|
  {
    StreamId(parent, stages[i].id)
  }

  /** The frame the decode loop sends from stage `i` to the next. */
  function FrameAt(parent: string, stages: seq<StageRef>, step: nat, i: nat): Frame
    requires i + 1 < |stages|
  {
    Frame(
      Chunk(parent, stages[i].id, step, CONTENT_TYPE, "mock", [1, 1, 2], "u8", 2,
        Checksum(step, i, stages[i].id, stages[i + 1].id)),
      [i % 256, step % 256])
  }

  /** A decode command to a stage's runtime. */
  datatype Command = Command(
    parentJobId: string,
    stageJobId: string,
    step: nat,
    downstreamNodeId: string,
    payload: seq<nat>,
    encoding: string,
    shape: seq<nat>,
    dtype: string,
    checksum: string)

  /** The frame a command sends, with the defaults for what it does not say. */
  function FrameOf(c: Command): Frame {
    Frame(
      Chunk(c.parentJobId, c.stageJobId, c.step, CONTENT_TYPE,
        if Blank(c.encoding) then "mock" else TrimSpace(c.encoding),
        if c.shape == [] then [1, 1, |c.payload|] else c.shape,
        if Blank(c.dtype) then "u8" else TrimSpace(c.dtype), |c.payload|, c.checksum),
      c.payload)
  }

  /** What is not said in a command is a mock encoding of unsigned bytes in one row; white space says nothing. */
  lemma FrameDefaults(c: Command)
    ensures var h := FrameOf(c).header;
      && h.parentJobId == c.parentJobId && h.stageJobId == c.stageJobId && h.sequence == c.step
      && h.contentType == "application/vnd.cmesh.activation+binary"
      && (if Shows(c.encoding) then IsTrimOf(h.encoding, c.encoding) else h.encoding == "mock")
      && (if Shows(c.dtype) then IsTrimOf(h.dtype, c.dtype) else h.dtype == "u8")
      && h.shape == (if c.shape == [] then [1, 1, |c.payload|] else c.shape)
      && h.payloadBytes == |c.payload| && h.checksum == c.checksum && FrameOf(c).payload == c.payload
  {
    hide TrimSpace, Shows;
    BlankMeans(c.encoding);
    BlankMeans(c.dtype);
    TrimSpaceMeans(c.encoding);
    TrimSpaceMeans(c.dtype);
  }

  /** The command the decode loop gives stage `i`. */
  function CommandAt(parent: string, stages: seq<StageRef>, step: nat, i: nat): Command
    requires i + 1 < |stages|
  {
    Command(parent, stages[i].id, step, stages[i + 1].assignedTo, [i % 256, step % 256], "mock", [1, 1, 2], "u8",
      Checksum(step, i, stages[i].id, stages[i + 1].id))
  }

  lemma CommandSendsFrame(parent: string, stages: seq<StageRef>, step: nat, i: nat)
    requires i + 1 < |stages|
    ensures FrameOf(CommandAt(parent, stages, step, i)) == FrameAt(parent, stages, step, i)
  {
    hide Checksum;
    TrimSpaceTrims("mock");
    TrimSpaceTrims("u8");
  }

  datatype Decoded = Rejected | NothingSent | FullStream | Sent(header: Chunk)

  /** The command can send: it has names, a downstream worker, a transport and something to send. */
  predicate CanSend(c: Command, connected: bool) {
    !Blank(c.parentJobId) && !Blank(c.stageJobId) && connected && !Blank(c.downstreamNodeId) && c.payload != []
  }

  /** The runtime rejects a command without names, or with nothing to send to a downstream worker; with no downstream
      worker or no transport it sends nothing; otherwise it sends the command's frame on the stage's own stream, when
      there is room. */
  method DecodeStage(bus: MemoryTransport?, c: Command) returns (result: Decoded)
    requires bus != null ==> bus.Valid()
    modifies bus
    ensures result.Rejected? <==>
      Blank(c.parentJobId) || Blank(c.stageJobId) || (bus != null && !Blank(c.downstreamNodeId) && c.payload == [])
    ensures result.NothingSent? ==> bus == null || Blank(c.downstreamNodeId)
    ensures result.FullStream? || result.Sent? ==> CanSend(c, bus != null)
    ensures CanSend(c, bus != null) ==>
      (result.FullStream? <==> |old(bus.Queue(StreamId(c.parentJobId, c.stageJobId)))| >= bus.buffer)
    ensures result.Sent? ==> result.header == FrameOf(c).header
    ensures bus != null ==> bus.Valid() && forall id :: id in old(bus.streams) ==> id in bus.streams
    ensures bus != null ==> forall id ::
      QueueOf(bus.streams, id) == QueueOf(old(bus.streams), id) + SentOn(c, result, id)
  {
    hide Blank, FrameOf;
    if Blank(c.parentJobId) || Blank(c.stageJobId) {
      return Rejected;
    }
    if bus == null || Blank(c.downstreamNodeId) {
      return NothingSent;
    }
    if |c.payload| == 0 {
      return Rejected;
    }
    var frame := FrameOf(c);
    CommandIsValid(c);
    hide Frame.Valid;
    var stream := StreamId(c.parentJobId, c.stageJobId);
    var isOpen := bus.Open(stream);
    var outcome := bus.Send(stream, frame);
    return if outcome == Delivered then Sent(frame.header) else FullStream;
  }

  /** A command that can send has a valid frame and a named stream. */
  lemma CommandIsValid(c: Command)
    requires CanSend(c, true)
    ensures FrameOf(c).Valid() && c.parentJobId != "" && c.stageJobId != ""
  {
    hide TrimSpace;
    TrimKeepsVisibleEnd(CONTENT_TYPE);
    BlankIsEmpty(c.parentJobId);
    BlankIsEmpty(c.stageJobId);
  }

  /** What the command put on a stream. */
  function SentOn(c: Command, result: Decoded, id: StreamId): seq<Frame> {
    if result.Sent? && id == StreamId(c.parentJobId, c.stageJobId) then [FrameOf(c)] else []
  }

  // ----- one relay attempt -----

  /** The frame the reader gets when `f` is sent through queue `q`, and the queue it leaves. */
  function Served(q: seq<Frame>, f: Frame): Frame {
    (q + [f])[0]
  }

  function Rest(q: seq<Frame>, f: Frame): seq<Frame> {
    (q + [f])[1..]
  }

  /** The frame that comes back is, by its checksum, the one that was sent. */
  predicate Matches(q: seq<Frame>, f: Frame) {
    Served(q, f).header.checksum == f.header.checksum
  }

  /** The stages of a distributed job: two or more, with distinct named jobs on named workers. */
  predicate IsPipeline(parent: string, stages: seq<StageRef>) {
    && !Blank(parent) && |stages| >= 2
    && (forall i :: 0 <= i < |stages| ==> !Blank(stages[i].id) && !Blank(stages[i].assignedTo))
    && (forall i, k :: 0 <= i < k < |stages| ==> stages[i].id != stages[k].id)
  }

  /** Stream `i` took the frame of this step in and gave its oldest one out. */
  predicate HasServed(
    before: map<StreamId, seq<Frame>>, parent: string, stages: seq<StageRef>, step: nat, i: nat,
    after: map<StreamId, seq<Frame>>)
    requires i + 1 < |stages|
  {
    QueueOf(after, Stream(parent, stages, i)) ==
      Rest(QueueOf(before, Stream(parent, stages, i)), FrameAt(parent, stages, step, i))
  }

  /** All frames came back, or one that was not the one sent, or a stream was full and the loop waits. */
  datatype Outcome = Relayed | Mismatched | Blocked

  predicate HasRoom(buffer: nat, streams: map<StreamId, seq<Frame>>, id: StreamId) {
    |QueueOf(streams, id)| < buffer
  }

  /** Stream `i` has room, and gives back the frame of this step. */
  predicate Passes(
    buffer: nat, before: map<StreamId, seq<Frame>>, parent: string, stages: seq<StageRef>, step: nat, i: nat)
    requires i + 1 < |stages|
  {
    && HasRoom(buffer, before, Stream(parent, stages, i))
    && Matches(QueueOf(before, Stream(parent, stages, i)), FrameAt(parent, stages, step, i))
  }

  /** What one attempt makes of the streams: it serves the first `reached` of them, stopping at a frame that is not the
      one sent, or before a stream that is full. */
  ghost predicate Attempts(
    buffer: nat, before: map<StreamId, seq<Frame>>, parent: string, stages: seq<StageRef>, step: nat,
    out: Outcome, reached: nat, after: map<StreamId, seq<Frame>>)
    requires |stages| >= 2
  {
    && reached <= |stages| - 1
    && (forall i :: 0 <= i < reached && (!out.Mismatched? || i < reached - 1) ==>
          Passes(buffer, before, parent, stages, step, i))
    && StopsAt(buffer, before, parent, stages, step, out, reached)
    && (forall i :: 0 <= i < reached ==> HasServed(before, parent, stages, step, i, after))
    && (forall id :: (forall i :: 0 <= i < reached ==> id != Stream(parent, stages, i)) ==>
          QueueOf(after, id) == QueueOf(before, id))
  }

  predicate StopsAt(
    buffer: nat, before: map<StreamId, seq<Frame>>, parent: string, stages: seq<StageRef>, step: nat,
    out: Outcome, reached: nat)
    requires |stages| >= 2 && reached <= |stages| - 1
  {
    match out
    case Relayed => reached == |stages| - 1
    case Mismatched =>
      && reached > 0 && HasRoom(buffer, before, Stream(parent, stages, reached - 1))
      && !Matches(QueueOf(before, Stream(parent, stages, reached - 1)), FrameAt(parent, stages, step, reached - 1))
    case Blocked => reached < |stages| - 1 && !HasRoom(buffer, before, Stream(parent, stages, reached))
  }

  /** One hop: open the stream, let the stage send, read a frame back and compare checksums. On a full stream the
      stage's sender waits, and no queue has changed. */
  method RelayHop(bus: MemoryTransport, parent: string, stages: seq<StageRef>, step: nat, i: nat)
    returns (out: Outcome, header: Option<Chunk>)
    requires bus.Valid() && IsPipeline(parent, stages) && i + 1 < |stages|
    modifies bus
    ensures bus.Valid()
    ensures out.Blocked? <==> !HasRoom(bus.buffer, old(bus.streams), Stream(parent, stages, i))
    ensures out.Relayed? <==> Passes(bus.buffer, old(bus.streams), parent, stages, step, i)
    ensures !out.Blocked? ==> HasServed(old(bus.streams), parent, stages, step, i, bus.streams)
    ensures header == if out.Blocked? then None
      else Some(Served(QueueOf(old(bus.streams), Stream(parent, stages, i)), FrameAt(parent, stages, step, i)).header)
    ensures forall id :: out.Blocked? || id != Stream(parent, stages, i) ==>
      QueueOf(bus.streams, id) == QueueOf(old(bus.streams), id)
  {
    hide FrameAt, FrameOf, CommandAt, Blank, IsPipeline, Frame.Valid;
    var stream, command := Stream(parent, stages, i), CommandAt(parent, stages, step, i);
    HopCanSend(parent, stages, step, i);
    var isOpen := bus.Open(stream);
    var decoded := DecodeStage(bus, command);
    if decoded == FullStream {
      return Blocked, None;
    }
    ghost var full := bus.streams;
    var received := bus.Receive(stream);
    assert forall id :: id != stream ==> QueueOf(bus.streams, id) == QueueOf(full, id);
    header := Some(received.value.header);
    var same := received.value.Valid() && decoded.Sent? && received.value.header.checksum == decoded.header.checksum;
    out := if same then Relayed else Mismatched;
  }

  lemma HopCanSend(parent: string, stages: seq<StageRef>, step: nat, i: nat)
    requires IsPipeline(parent, stages) && i + 1 < |stages|
    ensures var c := CommandAt(parent, stages, step, i);
      && CanSend(c, true) && FrameOf(c) == FrameAt(parent, stages, step, i)
      && StreamId(c.parentJobId, c.stageJobId) == Stream(parent, stages, i)
      && parent != "" && stages[i].id != ""
  {
    hide Checksum, TrimSpace;
    CommandSendsFrame(parent, stages, step, i);
    BlankIsEmpty(parent);
    BlankIsEmpty(stages[i].id);
  }

  /** The decode loop over the stages of a pipeline. */
  method RelayFrames(bus: MemoryTransport, parent: string, stages: seq<StageRef>, step: nat)
    returns (out: Outcome, frames: seq<Chunk>, ghost reached: nat)
    requires bus.Valid() && IsPipeline(parent, stages)
    modifies bus
    ensures bus.Valid()
    ensures Attempts(bus.buffer, old(bus.streams), parent, stages, step, out, reached, bus.streams)
    ensures out.Relayed? ==> |frames| == |stages| - 1
    ensures out.Relayed? ==> forall i :: 0 <= i < |frames| ==>
      frames[i] == Served(QueueOf(old(bus.streams), Stream(parent, stages, i)), FrameAt(parent, stages, step, i)).header
    ensures out.Relayed? && OnlyOwnFrames(old(bus.streams), parent, stages) ==>
      forall i :: 0 <= i < |frames| ==> frames[i].sequence == step
  {
    hide Blank, FrameAt, Matches, Served, Rest, HasRoom, OnlyOwnFrames;
    frames, reached := [], 0;
    ghost var before := bus.streams;
    for i := 0 to |stages| - 1
      invariant bus.Valid() && |frames| == reached == i
      invariant forall k :: 0 <= k < i ==> Passes(bus.buffer, before, parent, stages, step, k)
      invariant forall k :: 0 <= k < i ==>
        frames[k] == Served(QueueOf(before, Stream(parent, stages, k)), FrameAt(parent, stages, step, k)).header
      invariant forall k :: 0 <= k < i ==> HasServed(before, parent, stages, step, k, bus.streams)
      invariant forall id :: (forall k :: 0 <= k < i ==> id != Stream(parent, stages, k)) ==>
        QueueOf(bus.streams, id) == QueueOf(before, id)
    {
      ghost var mid := bus.streams;
      StreamUntouched(bus.buffer, before, mid, parent, stages, step, i);
      var hop, header := RelayHop(bus, parent, stages, step, i);
      forall k | 0 <= k < i ensures HasServed(before, parent, stages, step, k, bus.streams) {
        assert HasServed(before, parent, stages, step, k, mid);
        assert Stream(parent, stages, k) != Stream(parent, stages, i);
      }
      if hop == Blocked {
        assert StopsAt(bus.buffer, before, parent, stages, step, Blocked, i);
        return Blocked, [], reached;
      }
      assert HasServed(before, parent, stages, step, i, bus.streams);
      reached := i + 1;
      if hop == Mismatched {
        return Mismatched, [], reached;
      }
      frames := frames + [header.value];
    }
    out := Relayed;
    if OnlyOwnFrames(before, parent, stages) {
      AllOfThisStep(bus.buffer, before, parent, stages, step, reached, bus.streams);
    }
  }

  lemma AllOfThisStep(
    buffer: nat, before: map<StreamId, seq<Frame>>, parent: string, stages: seq<StageRef>, step: nat,
    reached: nat, after: map<StreamId, seq<Frame>>)
    requires IsPipeline(parent, stages) && Attempts(buffer, before, parent, stages, step, Relayed, reached, after)
    requires OnlyOwnFrames(before, parent, stages)
    ensures forall i :: 0 <= i < |stages| - 1 ==>
      Served(QueueOf(before, Stream(parent, stages, i)), FrameAt(parent, stages, step, i)).header.sequence == step
  {
    hide IsPipeline, Attempts, OnlyOwnFrames, FrameAt, Served;
    forall i | 0 <= i < |stages| - 1
      ensures Served(QueueOf(before, Stream(parent, stages, i)), FrameAt(parent, stages, step, i)).header.sequence ==
        step
    {
      RelayedMeansThisStep(buffer, before, parent, stages, step, reached, after, i);
    }
  }

  /** The stream of a hop is as it was when the attempt began. */
  lemma StreamUntouched(
      buffer: nat, before: map<StreamId, seq<Frame>>, mid: map<StreamId, seq<Frame>>, parent: string,
      stages: seq<StageRef>, step: nat, i: nat)
    requires i + 1 < |stages| && QueueOf(mid, Stream(parent, stages, i)) == QueueOf(before, Stream(parent, stages, i))
    ensures HasRoom(buffer, mid, Stream(parent, stages, i)) == HasRoom(buffer, before, Stream(parent, stages, i))
    ensures Passes(buffer, mid, parent, stages, step, i) == Passes(buffer, before, parent, stages, step, i)
    ensures Passes(buffer, before, parent, stages, step, i) ==
      (HasRoom(buffer, before, Stream(parent, stages, i))
       && Matches(QueueOf(before, Stream(parent, stages, i)), FrameAt(parent, stages, step, i)))
  {
  }

  /** An attempt waits if and only if it reaches a full stream: every stream before it has room and gives back the
      frame of this step. */
  lemma BlocksExactlyWhen(
    buffer: nat, before: map<StreamId, seq<Frame>>, parent: string, stages: seq<StageRef>, step: nat,
    out: Outcome, reached: nat, after: map<StreamId, seq<Frame>>)
    requires |stages| >= 2 && Attempts(buffer, before, parent, stages, step, out, reached, after)
    ensures out.Blocked? <==> exists i :: ReachesFull(buffer, before, parent, stages, step, i)
  {
    hide FrameAt, Matches, HasRoom, HasServed;
    if out.Blocked? {
      assert ReachesFull(buffer, before, parent, stages, step, reached);
    }
    assert out.Mismatched? ==> reached > 0 && !Passes(buffer, before, parent, stages, step, reached - 1);
    if i: nat :| ReachesFull(buffer, before, parent, stages, step, i) {
      assert i < reached && (!out.Mismatched? || i < reached - 1) ==> Passes(buffer, before, parent, stages, step, i);
    }
  }

  /** Stream `i` is full, and the attempt gets there. */
  predicate ReachesFull(
    buffer: nat, before: map<StreamId, seq<Frame>>, parent: string, stages: seq<StageRef>, step: nat, i: nat)
  {
    && i + 1 < |stages| && !HasRoom(buffer, before, Stream(parent, stages, i))
    && forall k :: 0 <= k < i ==> Passes(buffer, before, parent, stages, step, k)
  }

  lemma BlankIsEmpty(s: string)
    ensures !Blank(s) ==> s != ""
  {
  }

  // ----- what an attempt keeps, and why attempts stop failing -----

  /** How many queued frames are not the ones this step sends. */
  function Stale(q: seq<Frame>, checksum: string): nat {
    if q == [] then 0 else Stale(q[..|q| - 1], checksum) + if q[|q| - 1].header.checksum != checksum then 1 else 0
  }

  function StaleAt(streams: map<StreamId, seq<Frame>>, parent: string, stages: seq<StageRef>, step: nat, i: nat): nat
    requires i + 1 < |stages|
  {
    Stale(QueueOf(streams, Stream(parent, stages, i)), FrameAt(parent, stages, step, i).header.checksum)
  }

  /** The total over the first `n` streams. */
  function TotalStale(streams: map<StreamId, seq<Frame>>, parent: string, stages: seq<StageRef>, step: nat, n: nat): nat
    requires n < |stages|
  {
    if n == 0 then 0
    else TotalStale(streams, parent, stages, step, n - 1) + StaleAt(streams, parent, stages, step, n - 1)
  }

  lemma {:induction false} StaleFromFront(q: seq<Frame>, checksum: string)
    requires q != []
    ensures Stale(q, checksum) == Stale(q[1..], checksum) + if q[0].header.checksum != checksum then 1 else 0
  {
    if |q| > 1 {
      StaleFromFront(q[..|q| - 1], checksum);
      assert q[1..][..|q| - 2] == q[..|q| - 1][1..];
    }
  }

  /** Sending the expected frame and reading one back drops a stale frame, or none when the read one matches. */
  lemma ServingDropsStale(q: seq<Frame>, f: Frame)
    ensures Stale(Rest(q, f), f.header.checksum) + (if Matches(q, f) then 0 else 1) == Stale(q, f.header.checksum)
    ensures |Rest(q, f)| == |q|
  {
    StaleFromFront(q + [f], f.header.checksum);
    assert (q + [f])[..|q|] == q;
  }

  /** What an attempt does to the stale frames of one stream. */
  lemma StreamDropsStale(
    buffer: nat, before: map<StreamId, seq<Frame>>, parent: string, stages: seq<StageRef>, step: nat,
    out: Outcome, reached: nat, after: map<StreamId, seq<Frame>>, i: nat)
    requires IsPipeline(parent, stages) && i + 1 < |stages|
      && Attempts(buffer, before, parent, stages, step, out, reached, after)
    ensures StaleAt(after, parent, stages, step, i) + (if out.Mismatched? && reached == i + 1 then 1 else 0)
         == StaleAt(before, parent, stages, step, i)
  {
    hide Blank, FrameAt, Stale, Served, Rest;
    var stream, f := Stream(parent, stages, i), FrameAt(parent, stages, step, i);
    if i < reached {
      assert HasServed(before, parent, stages, step, i, after);
      assert !out.Mismatched? || i < reached - 1 ==> Passes(buffer, before, parent, stages, step, i);
      ServingDropsStale(QueueOf(before, stream), f);
    } else {
      assert forall k :: 0 <= k < reached ==> stream != Stream(parent, stages, k);
    }
  }

  lemma {:induction false} AttemptDropsStale(
    buffer: nat, before: map<StreamId, seq<Frame>>, parent: string, stages: seq<StageRef>, step: nat,
    out: Outcome, reached: nat, after: map<StreamId, seq<Frame>>, n: nat)
    requires IsPipeline(parent, stages) && n < |stages|
    requires Attempts(buffer, before, parent, stages, step, out, reached, after)
    requires out.Mismatched? ==> reached > 0
    ensures TotalStale(after, parent, stages, step, n) + (if out.Mismatched? && reached <= n then 1 else 0)
         == TotalStale(before, parent, stages, step, n)
  {
    hide Attempts, StaleAt, IsPipeline;
    if n > 0 {
      AttemptDropsStale(buffer, before, parent, stages, step, out, reached, after, n - 1);
      StreamDropsStale(buffer, before, parent, stages, step, out, reached, after, n - 1);
    }
  }

  /** One attempt keeps the length of every stream; when it fails, exactly one stale frame is gone. */
  lemma AttemptHeals(
    buffer: nat, before: map<StreamId, seq<Frame>>, parent: string, stages: seq<StageRef>, step: nat,
    out: Outcome, reached: nat, after: map<StreamId, seq<Frame>>)
    requires IsPipeline(parent, stages) && Attempts(buffer, before, parent, stages, step, out, reached, after)
    ensures forall id :: |QueueOf(after, id)| == |QueueOf(before, id)|
    ensures TotalStale(after, parent, stages, step, |stages| - 1) + (if out.Mismatched? then 1 else 0)
         == TotalStale(before, parent, stages, step, |stages| - 1)
  {
    hide Blank, FrameAt, TotalStale, Matches, Served;
    forall id ensures |QueueOf(after, id)| == |QueueOf(before, id)| {
      if i :| 0 <= i < reached && id == Stream(parent, stages, i) {
        assert HasServed(before, parent, stages, step, i, after);
      }
    }
    AttemptDropsStale(buffer, before, parent, stages, step, out, reached, after, |stages| - 1);
  }

  /** A failed attempt with the same step, and nobody else on the streams. */
  ghost predicate Fails(
      buffer: nat, before: map<StreamId, seq<Frame>>, parent: string, stages: seq<StageRef>, step: nat,
      after: map<StreamId, seq<Frame>>)
    requires |stages| >= 2
  {
    exists reached :: Attempts(buffer, before, parent, stages, step, Mismatched, reached, after)
  }

  /** Consecutive attempts of one step cannot fail more often than there were stale frames to begin with. */
  lemma {:induction false} FailuresAreBounded(
      buffer: nat, trail: seq<map<StreamId, seq<Frame>>>, parent: string, stages: seq<StageRef>, step: nat)
    requires IsPipeline(parent, stages) && trail != []
    requires forall i :: 0 <= i < |trail| - 1 ==> Fails(buffer, trail[i], parent, stages, step, trail[i + 1])
    ensures |trail| - 1 + TotalStale(trail[|trail| - 1], parent, stages, step, |stages| - 1)
         == TotalStale(trail[0], parent, stages, step, |stages| - 1)
  {
    hide Attempts, Blank, TotalStale;
    var last := |trail| - 1;
    if last > 0 {
      assert Fails(buffer, trail[last - 1], parent, stages, step, trail[last]);
      FailuresAreBounded(buffer, trail[..last], parent, stages, step);
      var reached :| Attempts(buffer, trail[last - 1], parent, stages, step, Mismatched, reached, trail[last]);
      AttemptHeals(buffer, trail[last - 1], parent, stages, step, Mismatched, reached, trail[last]);
    }
  }

  /** With no frames queued the attempt succeeds, and what comes back is what was sent. */
  lemma EmptyStreamsRelay(
    buffer: nat, before: map<StreamId, seq<Frame>>, parent: string, stages: seq<StageRef>, step: nat,
    out: Outcome, reached: nat, after: map<StreamId, seq<Frame>>)
    requires IsPipeline(parent, stages) && Attempts(buffer, before, parent, stages, step, out, reached, after)
    requires buffer >= 1 && forall i :: 0 <= i < |stages| ==> QueueOf(before, Stream(parent, stages, i)) == []
    ensures out.Relayed?
    ensures forall i :: 0 <= i < |stages| - 1 ==>
      && Served(QueueOf(before, Stream(parent, stages, i)), FrameAt(parent, stages, step, i)) ==
        FrameAt(parent, stages, step, i)
      && QueueOf(after, Stream(parent, stages, i)) == []
  {
    hide Blank, FrameAt;
    forall i | 0 <= i < |stages| - 1
      ensures Served(QueueOf(before, Stream(parent, stages, i)), FrameAt(parent, stages, step, i)) ==
        FrameAt(parent, stages, step, i)
      ensures Rest(QueueOf(before, Stream(parent, stages, i)), FrameAt(parent, stages, step, i)) == []
      ensures Matches(QueueOf(before, Stream(parent, stages, i)), FrameAt(parent, stages, step, i))
    {
      assert QueueOf(before, Stream(parent, stages, i)) == [];
    }
    assert out.Relayed?;
    forall i | 0 <= i < |stages| - 1 ensures QueueOf(after, Stream(parent, stages, i)) == [] {
      assert HasServed(before, parent, stages, step, i, after);
    }
  }

  // ----- steps do not get mixed up -----

  predicate IsDigits(s: string) {
    forall i :: 0 <= i < |s| ==> '0' <= s[i] <= '9'
  }

  lemma {:induction false} DecimalWritesDigits(n: nat)
    ensures |Decimal(n)| > 0 && IsDigits(Decimal(n))
  {
    if n >= 10 {
      DecimalWritesDigits(n / 10);
    }
  }

  /** Different numbers are written differently. */
  lemma {:induction false} DecimalIsInjective(m: nat, n: nat)
    requires Decimal(m) == Decimal(n)
    ensures m == n
    decreases m
  {
    DecimalWritesDigits(m / 10);
    DecimalWritesDigits(n / 10);
    var a, b := Decimal(m), Decimal(n);
    DecimalEnds(m);
    DecimalEnds(n);
    if m >= 10 && n >= 10 {
      assert Decimal(m / 10) == a[..|a| - 1] == b[..|b| - 1] == Decimal(n / 10);
      DecimalIsInjective(m / 10, n / 10);
    }
  }

  lemma DecimalEnds(n: nat)
    ensures Decimal(n) != [] && Decimal(n)[|Decimal(n)| - 1] as int == '0' as int + n % 10
    ensures |Decimal(n)| == 1 <==> n < 10
  {
    if n >= 10 {
      DecimalWritesDigits(n / 10);
    }
  }

  /** Digits up to the first colon can be read back. */
  lemma ReadToColon(a: string, b: string, x: string, y: string)
    requires IsDigits(a) && IsDigits(b) && a + ":" + x == b + ":" + y
    ensures a == b
  {
    var s, t := a + ":" + x, b + ":" + y;
    assert s[|a|] == ':' && t[|b|] == ':';
    assert forall i :: 0 <= i < |a| ==> s[i] == a[i];
    assert forall i :: 0 <= i < |b| ==> t[i] == b[i];
    assert |a| == |b|;
    assert s[..|a|] == a && t[..|b|] == b;
  }

  /** The frames of two steps at one hop have different checksums. */
  lemma StepsHaveDifferentChecksums(parent: string, stages: seq<StageRef>, i: nat, step: nat, other: nat)
    requires i + 1 < |stages| && step != other
    ensures FrameAt(parent, stages, step, i).header.checksum != FrameAt(parent, stages, other, i).header.checksum
  {
    var up, down := stages[i].id, stages[i + 1].id;
    var c, d := Checksum(step, i, up, down), Checksum(other, i, up, down);
    var rest := Decimal(i) + ":" + up + ":" + down;
    assert c == "mock:" + (Decimal(step) + ":" + rest) && d == "mock:" + (Decimal(other) + ":" + rest);
    if c == d {
      assert c[5..] == Decimal(step) + ":" + rest && d[5..] == Decimal(other) + ":" + rest;
      DecimalWritesDigits(step);
      DecimalWritesDigits(other);
      ReadToColon(Decimal(step), Decimal(other), rest, rest);
      DecimalIsInjective(step, other);
    }
  }

  /** Every queued frame of the pipeline is one that its loop sent, in whatever step. */
  ghost predicate OnlyOwnFrames(streams: map<StreamId, seq<Frame>>, parent: string, stages: seq<StageRef>) {
    forall i, k :: 0 <= i < |stages| - 1 && 0 <= k < |QueueOf(streams, Stream(parent, stages, i))| ==>
      IsOwnFrame(parent, stages, i, QueueOf(streams, Stream(parent, stages, i))[k])
  }

  ghost predicate IsOwnFrame(parent: string, stages: seq<StageRef>, i: nat, f: Frame)
    requires i + 1 < |stages|
  {
    exists step: nat :: f == FrameAt(parent, stages, step, i)
  }

  /** A stream gives back the frame of this step if and only if it is empty or has that frame at its head. */
  lemma MatchesExactlyWhen(parent: string, stages: seq<StageRef>, step: nat, i: nat, q: seq<Frame>)
    requires i + 1 < |stages| && (q != [] ==> IsOwnFrame(parent, stages, i, q[0]))
    ensures Matches(q, FrameAt(parent, stages, step, i)) <==> q == [] || q[0].header.sequence == step
    ensures Matches(q, FrameAt(parent, stages, step, i)) ==>
      Served(q, FrameAt(parent, stages, step, i)) == FrameAt(parent, stages, step, i)
  {
    hide Checksum;
    if q != [] {
      var other: nat :| q[0] == FrameAt(parent, stages, other, i);
      assert q[0].header.sequence == other;
      if other != step {
        StepsHaveDifferentChecksums(parent, stages, i, step, other);
      }
    }
  }

  /** What comes back is of this step: an attempt that relays returns this step's frames, every one of them. */
  lemma RelayedMeansThisStep(
    buffer: nat, before: map<StreamId, seq<Frame>>, parent: string, stages: seq<StageRef>, step: nat,
    reached: nat, after: map<StreamId, seq<Frame>>, i: nat)
    requires IsPipeline(parent, stages) && Attempts(buffer, before, parent, stages, step, Relayed, reached, after)
    requires OnlyOwnFrames(before, parent, stages) && i < |stages| - 1
    ensures var frame := Served(QueueOf(before, Stream(parent, stages, i)), FrameAt(parent, stages, step, i));
      frame == FrameAt(parent, stages, step, i) && frame.header.sequence == step
  {
    hide FrameAt, Matches, HasServed, Blank;
    var q := QueueOf(before, Stream(parent, stages, i));
    assert Passes(buffer, before, parent, stages, step, i);
    if q != [] {
      assert IsOwnFrame(parent, stages, i, QueueOf(before, Stream(parent, stages, i))[0]);
    }
    MatchesExactlyWhen(parent, stages, step, i, q);
    FrameCarriesStep(parent, stages, step, i);
  }

  /** A frame carries its step, on the stream of its own stage, and two bytes: its position and its step, modulo 256. */
  lemma FrameCarriesStep(parent: string, stages: seq<StageRef>, step: nat, i: nat)
    requires i + 1 < |stages|
    ensures var f := FrameAt(parent, stages, step, i);
      && f.header.sequence == step && f.header.parentJobId == parent && f.header.stageJobId == stages[i].id
      && |f.payload| == f.header.payloadBytes == 2 && f.payload[0] == i % 256 && f.payload[1] == step % 256
  {
  }

  /** A frame of another step at the head of a stream that is reached and has room makes the attempt fail there. */
  lemma OtherStepMismatches(
    buffer: nat, before: map<StreamId, seq<Frame>>, parent: string, stages: seq<StageRef>, step: nat,
    out: Outcome, reached: nat, after: map<StreamId, seq<Frame>>, i: nat)
    requires IsPipeline(parent, stages) && Attempts(buffer, before, parent, stages, step, out, reached, after)
    requires OnlyOwnFrames(before, parent, stages) && i < |stages| - 1
    requires forall k :: 0 <= k < i ==> Passes(buffer, before, parent, stages, step, k)
    requires HasRoom(buffer, before, Stream(parent, stages, i)) && QueueOf(before, Stream(parent, stages, i)) != []
    requires QueueOf(before, Stream(parent, stages, i))[0].header.sequence != step
    ensures out == Mismatched && reached == i + 1
  {
    hide FrameAt, Matches, HasServed, Blank, HasRoom;
    var q := QueueOf(before, Stream(parent, stages, i));
    assert IsOwnFrame(parent, stages, i, QueueOf(before, Stream(parent, stages, i))[0]);
    MatchesExactlyWhen(parent, stages, step, i, q);
    assert !Passes(buffer, before, parent, stages, step, i);
    assert out.Blocked? && reached < i ==> Passes(buffer, before, parent, stages, step, reached);
    assert 0 < reached <= i ==> Passes(buffer, before, parent, stages, step, reached - 1);
  }

  /** An attempt leaves only own frames behind. */
  lemma OwnFramesStay(
    buffer: nat, before: map<StreamId, seq<Frame>>, parent: string, stages: seq<StageRef>, step: nat,
    out: Outcome, reached: nat, after: map<StreamId, seq<Frame>>)
    requires IsPipeline(parent, stages) && Attempts(buffer, before, parent, stages, step, out, reached, after)
    requires OnlyOwnFrames(before, parent, stages)
    ensures OnlyOwnFrames(after, parent, stages)
  {
    hide FrameAt, Matches, Blank, HasRoom, StopsAt, Passes;
    forall i, k | 0 <= i < |stages| - 1 && 0 <= k < |QueueOf(after, Stream(parent, stages, i))|
      ensures IsOwnFrame(parent, stages, i, QueueOf(after, Stream(parent, stages, i))[k])
    {
      var q, f := QueueOf(before, Stream(parent, stages, i)), FrameAt(parent, stages, step, i);
      if i < reached {
        assert HasServed(before, parent, stages, step, i, after);
        if k + 1 < |q| {
          assert IsOwnFrame(parent, stages, i, QueueOf(before, Stream(parent, stages, i))[k + 1]);
        }
      } else {
        assert forall n :: 0 <= n < reached ==> Stream(parent, stages, i) != Stream(parent, stages, n);
        assert IsOwnFrame(parent, stages, i, QueueOf(before, Stream(parent, stages, i))[k]);
      }
    }
  }
}
