/** Messages between the daemon's collector and the network helper, and the helper's serve loop. */
module HelperProtocol {
  import opened Wrappers
  import opened Common
  import opened LengthPrefix
  import opened HelperFraming

  const PROTOCOL_VERSION: nat := 1
  const MAX_BINDINGS: nat := 4096
  const MAX_COUNTER_RECORDS: nat := 4096
  const MAX_APPLICATION_KEY_BYTES: nat := 512
  const MAX_REASON_BYTES: nat := 256

  // ----- messages

  datatype Binding = Binding(cgroup: nat, key: string)

  datatype Request = Request(version: nat, generation: nat, bindings: seq<Binding>)

  datatype Status = Healthy | Degraded | Unsupported

  datatype Reason =
    | Attached | NotAttached | NotBuilt | BpfDisabled | BtfUnavailable | LibbpfUnavailable
    | PermissionDenied | BindingsUnavailable

  datatype Counter = Counter(cgroup: nat, rx: nat, tx: nat)

  datatype CounterSnapshot = CounterSnapshot(
    status: Status, reason: Reason, capturedAt: Option<nat>, records: seq<Counter>)

  datatype Body = SnapshotBody(snapshot: CounterSnapshot) | ErrorBody(reason: string)

  datatype Reply = Reply(version: nat, generation: nat, body: Body)

  predicate DistinctBindings(bs: seq<Binding>)
  {
    forall i, j :: 0 <= i < j < |bs| ==> bs[i].cgroup != bs[j].cgroup
  }

  /** `CollectionRequest::validate`. */
  predicate ValidRequest(r: Request)
  {
    && r.version == PROTOCOL_VERSION
    && r.generation != 0
    && |r.bindings| <= MAX_BINDINGS
    && (forall i :: 0 <= i < |r.bindings| ==>
          r.bindings[i].cgroup != 0 && ValidText(r.bindings[i].key, MAX_APPLICATION_KEY_BYTES))
    && DistinctBindings(r.bindings)
  }

  predicate ValidCapability(status: Status, reason: Reason)
  {
    match status
    case Healthy => reason.Attached?
    case Degraded => reason.NotAttached? || reason.PermissionDenied? || reason.BindingsUnavailable?
    case Unsupported =>
      reason.NotBuilt? || reason.BpfDisabled? || reason.BtfUnavailable? || reason.LibbpfUnavailable?
      || reason.PermissionDenied?
  }

  predicate DistinctCounters(cs: seq<Counter>)
  {
    forall i, j :: 0 <= i < j < |cs| ==> cs[i].cgroup != cs[j].cgroup
  }

  /** `CounterSnapshot::validate`. */
  predicate ValidSnapshot(s: CounterSnapshot)
  {
    && ValidCapability(s.status, s.reason)
    && |s.records| <= MAX_COUNTER_RECORDS
    && (s.status.Healthy? ==> s.capturedAt.Some?)
    && (s.status.Unsupported? ==> s.records == [] && s.capturedAt.None?)
    && (s.records != [] ==> s.capturedAt.Some?)
    && (forall i :: 0 <= i < |s.records| ==> s.records[i].cgroup != 0)
    && DistinctCounters(s.records)
  }

  /** `CollectionReply::validate`. */
  predicate ValidReply(r: Reply)
  {
    && r.version == PROTOCOL_VERSION
    && match r.body
       case SnapshotBody(s) => r.generation != 0 && ValidSnapshot(s)
       case ErrorBody(reason) => ValidText(reason, MAX_REASON_BYTES)
  }

  /** The request check as it runs, filling a set of the identifiers seen. */
  method CheckRequest(r: Request) returns (ok: bool)
    ensures ok <==> ValidRequest(r)
  {
    if r.version != PROTOCOL_VERSION || r.generation == 0 || |r.bindings| > MAX_BINDINGS { return false; }
    var ids: set<nat> := {};
    for i := 0 to |r.bindings|
      invariant forall j :: 0 <= j < i ==> r.bindings[j].cgroup in ids
      invariant forall id | id in ids :: exists j :: 0 <= j < i && r.bindings[j].cgroup == id
      invariant forall j :: 0 <= j < i ==>
        r.bindings[j].cgroup != 0 && ValidText(r.bindings[j].key, MAX_APPLICATION_KEY_BYTES)
      invariant forall j, k :: 0 <= j < k < i ==> r.bindings[j].cgroup != r.bindings[k].cgroup
    {
      var b := r.bindings[i];
      if b.cgroup == 0 { return false; }
      if b.cgroup in ids { return false; }
      ids := ids + {b.cgroup};
      if !ValidText(b.key, MAX_APPLICATION_KEY_BYTES) { return false; }
    }
    ok := true;
  }

  /** The duplicate check on counter records, as it runs. */
  method CheckRecords(records: seq<Counter>) returns (ok: bool)
    ensures ok <==> DistinctCounters(records) && forall i :: 0 <= i < |records| ==> records[i].cgroup != 0
  {
    var ids: set<nat> := {};
    for i := 0 to |records|
      invariant forall j :: 0 <= j < i ==> records[j].cgroup in ids && records[j].cgroup != 0
      invariant forall id | id in ids :: exists j :: 0 <= j < i && records[j].cgroup == id
      invariant forall j, k :: 0 <= j < k < i ==> records[j].cgroup != records[k].cgroup
    {
      if records[i].cgroup == 0 { return false; }
      if records[i].cgroup in ids { return false; }
      ids := ids + {records[i].cgroup};
    }
    ok := true;
  }

  // ----- the helper's serve loop

  /** JSON both ways, the text of a refusal, and the collector. */
  datatype Codec = Codec(
    parse: Payload -> Option<Request>,
    refusal: Payload -> string,
    collect: Request -> Result<CounterSnapshot, string>,
    render: Reply -> Payload)

  /** What the helper replies to a frame: generation zero when it is no valid request. */
  function ReplyTo(c: Codec, p: Payload): Reply
  {
    var request := c.parse(p);
    if request.None? || !ValidRequest(request.value) then Reply(PROTOCOL_VERSION, 0, ErrorBody(c.refusal(p)))
    else
      match c.collect(request.value)
      case Ok(snapshot) => Reply(PROTOCOL_VERSION, request.value.generation, SnapshotBody(snapshot))
      case Err(reason) => Reply(PROTOCOL_VERSION, request.value.generation, ErrorBody(reason))
  }

  /** A reply that validates and fits a frame. */
  predicate Writable(c: Codec, reply: Reply)
  {
    ValidReply(reply) && Sized(c.render(reply))
  }

  /** The answers to a list of frames, up to the first reply that cannot be written. */
  function Answers(c: Codec, ps: seq<Payload>): seq<Payload>
  {
    if ps == [] || !Writable(c, ReplyTo(c, ps[0])) then []
    else [c.render(ReplyTo(c, ps[0]))] + Answers(c, ps[1..])
  }

  /** What serving a stream writes, and whether it ends in success, one frame at a time. */
  datatype Served = Served(output: Bytes, ok: bool)

  function Serve(c: Codec, s: Bytes): Served
  {
    match Read(s)
    case Err(_) => Served([], false)
    case Ok(None) => Served([], true)
    case Ok(Some(p)) =>
      var reply := ReplyTo(c, p);
      if !Writable(c, reply) then Served([], false)
      else
        var later := Serve(c, HeadOf(s).rest);
        Served(Framed(c.render(reply)) + later.output, later.ok)
  }

  /** The reply to one frame, with the request checked as it is decoded. */
  method ReplyFor(c: Codec, payload: Payload) returns (reply: Reply)
    ensures reply == ReplyTo(c, payload)
  {
    var request := c.parse(payload);
    if request.Some? {
      var valid := CheckRequest(request.value);
      if valid {
        var generation := request.value.generation;
        match c.collect(request.value) {
          case Ok(snapshot) => return Reply(PROTOCOL_VERSION, generation, SnapshotBody(snapshot));
          case Err(reason) => return Reply(PROTOCOL_VERSION, generation, ErrorBody(reason));
        }
      }
    }
    return Reply(PROTOCOL_VERSION, 0, ErrorBody(c.refusal(payload)));
  }

  /** `serve_stdio`. */
  method ServeStdio(reader: Pipe, writer: Pipe, c: Codec) returns (ok: bool)
    requires reader != writer
    modifies reader, writer
    ensures writer.bytes == old(writer.bytes) + Serve(c, old(reader.bytes)).output
    ensures ok == Serve(c, old(reader.bytes)).ok
  {
    ghost var all := Serve(c, reader.bytes);
    while true
      invariant old(writer.bytes) + all.output == writer.bytes + Serve(c, reader.bytes).output
      invariant all.ok == Serve(c, reader.bytes).ok
      decreases |reader.bytes|
    {
      var frame := ReadFrame(reader);
      if frame.Err? { return false; }
      if frame.value.None? { return true; }
      var reply := ReplyFor(c, frame.value.value);
      if !ValidReply(reply) { return false; }
      Assoc(writer.bytes, Framed(c.render(reply)), Serve(c, reader.bytes).output);
      var written := WriteFrame(writer, c.render(reply));
      if written.Err? { return false; }
    }
  }

  /**
   `out` is the rendered answer to frame `p`: the collector's snapshot or error under the request's own
   generation when the frame is a valid request, and otherwise a refusal under generation zero.
   */
  predicate Answered(c: Codec, p: Payload, out: Payload)
  {
    if c.parse(p).Some? && ValidRequest(c.parse(p).value) then
      var r := c.parse(p).value;
      match c.collect(r)
      case Ok(s) => ValidSnapshot(s) && out == c.render(Reply(PROTOCOL_VERSION, r.generation, SnapshotBody(s)))
      case Err(e) =>
        ValidText(e, MAX_REASON_BYTES) && out == c.render(Reply(PROTOCOL_VERSION, r.generation, ErrorBody(e)))
    else
      && ValidText(c.refusal(p), MAX_REASON_BYTES)
      && out == c.render(Reply(PROTOCOL_VERSION, 0, ErrorBody(c.refusal(p))))
  }

  /** Nothing can be written in answer to `p`: its reply does not validate or does not fit a frame. */
  predicate Unanswerable(c: Codec, p: Payload)
  {
    if c.parse(p).Some? && ValidRequest(c.parse(p).value) then
      var r := c.parse(p).value;
      match c.collect(r)
      case Ok(s) => !ValidSnapshot(s) || !Sized(c.render(Reply(PROTOCOL_VERSION, r.generation, SnapshotBody(s))))
      case Err(e) =>
        !ValidText(e, MAX_REASON_BYTES) || !Sized(c.render(Reply(PROTOCOL_VERSION, r.generation, ErrorBody(e))))
    else
      || !ValidText(c.refusal(p), MAX_REASON_BYTES)
      || !Sized(c.render(Reply(PROTOCOL_VERSION, 0, ErrorBody(c.refusal(p)))))
  }

  lemma AnswerExactly(c: Codec, p: Payload)
    ensures Writable(c, ReplyTo(c, p)) <==> !Unanswerable(c, p)
    ensures Writable(c, ReplyTo(c, p)) ==> Answered(c, p, c.render(ReplyTo(c, p))) && Sized(c.render(ReplyTo(c, p)))
  {
  }

  /** Answers pair off with the frames, and stop only at one that cannot be answered. */
  lemma {:induction false} AnswersExactly(c: Codec, ps: seq<Payload>)
    ensures var out := Answers(c, ps);
      && |out| <= |ps| && (forall i :: 0 <= i < |out| ==> Sized(out[i]) && Answered(c, ps[i], out[i]))
      && (|out| < |ps| ==> Unanswerable(c, ps[|out|]))
      && (forall i :: 0 <= i < |out| ==> !Unanswerable(c, ps[i]))
  {
    if ps == [] {
    } else {
      AnswerExactly(c, ps[0]);
      AnswersExactly(c, ps[1..]);
    }
  }

  /** Serving a stream writes the answers to its frames. */
  lemma {:induction false} ServeIsAnswers(c: Codec, s: Bytes)
    ensures Serve(c, s).output == Flatten(Answers(c, ReadAll(s).payloads))
    ensures Serve(c, s).ok <==> |Answers(c, ReadAll(s).payloads)| == |ReadAll(s).payloads| && ReadAll(s).end.None?
    decreases |s|
  {
    if Read(s).Err? || Read(s).value.None? {
      assert ReadAll(s).payloads == [];
    } else {
      var p, rest := Read(s).value.value, HeadOf(s).rest;
      var ps, later := ReadAll(s).payloads, ReadAll(rest).payloads;
      ServeIsAnswers(c, rest);
      assert ps[1..] == later && ps[0] == p;
      if Writable(c, ReplyTo(c, p)) {
        FlattenCons(c.render(ReplyTo(c, p)), Answers(c, later));
      }
    }
  }

  /**
   Whatever the input bytes: the output is exactly one framed answer per complete request frame, in order, up
   to the first that cannot be answered; serving succeeds exactly when every frame was answered and the input
   ended at a frame boundary.
   */
  lemma OneReplyPerRequest(c: Codec, s: Bytes) returns (out: seq<Payload>)
    ensures Serve(c, s).output == Flatten(out) && |out| <= |ReadAll(s).payloads|
    ensures forall i :: 0 <= i < |out| ==> Sized(out[i]) && Answered(c, ReadAll(s).payloads[i], out[i])
    ensures |out| < |ReadAll(s).payloads| ==> Unanswerable(c, ReadAll(s).payloads[|out|])
    ensures Serve(c, s).ok <==> |out| == |ReadAll(s).payloads| && ReadAll(s).end.None?
  {
    out := Answers(c, ReadAll(s).payloads);
    ServeIsAnswers(c, s);
    AnswersExactly(c, ReadAll(s).payloads);
  }
}
