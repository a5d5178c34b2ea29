/**
 The Start, chunks, End response loop of the IPC client (`crates/ipc/src/client.rs`). Every reader of a
 streamed response runs this loop; a `Protocol` holds the checks that differ between them.
 */
module IpcStream {
  import opened Wrappers
  import opened Common
  import opened LengthPrefix
  import opened IpcFrame

  datatype Body<S, C, E> = Start(start: S) | Chunk(chunk: C) | End(end: E) | Error | Other

  /** Start `S`, chunk `C`, accumulator `A`, end `E`, result `V`; `declared` is the data frame count of a Start. */
  datatype Protocol<!S, !C, !A, !E, !V> = Protocol(
    validStart: S -> bool,
    declared: S -> nat,
    initial: S -> A,
    accept: (S, A, C) -> Result<A, ProtocolError>,
    finish: (S, Uuid, A, E) -> Result<V, ProtocolError>)

  /** The result and the number of frame reads it took. */
  datatype Outcome<V> = Outcome(result: Result<V, ClientError>, taken: nat)

  /** `validate_envelope`, and for frames after the first `validate_stream_envelope`. */
  function EnvelopeError<B>(e: Envelope<B>, requestId: Uuid, sequence: nat): Option<ProtocolError>
  {
    if e.version != WIRE_PROTOCOL_VERSION then Some(Version)
    else if e.requestId != requestId then Some(RequestId)
    else if e.sequence != sequence then Some(Sequence)
    else None
  }

  function Refuse<V>(error: ProtocolError): Outcome<V>
  {
    Outcome(Err(Violation(error)), 1)
  }

  /** The loop after an accepted Start. */
  function Continue<S, C, A, E, V>(
    pr: Protocol<S, C, A, E, V>, w: Wire<Body<S, C, E>>, requestId: Uuid, id: Uuid, start: S,
    b: Budget, sequence: nat, a: A): Outcome<V>
    decreases |w.frames|
  {
    match Take(w, b)
    case Err(error) => Outcome(Err(if error.UnexpectedEof? then Violation(MissingTerminal) else Framing(error)), 1)
    case Ok((e, charged)) =>
      var bad := EnvelopeError(e, requestId, sequence);
      if bad.Some? then Refuse(bad.value)
      else if e.snapshotId != Some(id) then Refuse(SnapshotIdentity)
      else
        match e.body
        case Chunk(chunk) =>
          (match pr.accept(start, a, chunk)
           case Err(error) => Refuse(error)
           case Ok(next) =>
             if sequence >= U32_MAX then Refuse(SequenceOverflow)
             else
               var later := Continue(pr, Rest(w), requestId, id, start, charged, sequence + 1, next);
               Outcome(later.result, later.taken + 1))
        case End(end) =>
          (match pr.finish(start, id, a, end)
           case Err(error) => Refuse(error)
           case Ok(value) => Outcome(if AtEof(Rest(w)) then Ok(value) else Err(Violation(TrailingData)), 1))
        case Error => Outcome(if AtEof(Rest(w)) then Err(Daemon) else Err(Violation(TrailingData)), 1)
        case _ => Refuse(UnexpectedBody)
  }

  /** The whole read, Start included. */
  function Read<S, C, A, E, V>(
    pr: Protocol<S, C, A, E, V>, w: Wire<Body<S, C, E>>, requestId: Uuid, b: Budget): Outcome<V>
  {
    match Take(w, b)
    case Err(error) => Outcome(Err(Framing(error)), 1)
    case Ok((e, charged)) =>
      var bad := EnvelopeError(e, requestId, 0);
      if bad.Some? then Refuse(bad.value)
      else
        match e.body
        case Start(start) =>
          if e.snapshotId.None? || e.snapshotId.value == 0 then Refuse(SnapshotIdentity)
          else if !pr.validStart(start) then Refuse(InvalidStart)
          else
            var later := Continue(pr, Rest(w), requestId, e.snapshotId.value, start, charged, 1, pr.initial(start));
            Outcome(later.result, later.taken + 1)
        case Error =>
          if e.snapshotId.Some? then Refuse(SnapshotIdentity)
          else Outcome(if AtEof(Rest(w)) then Err(Daemon) else Err(Violation(TrailingData)), 1)
        case _ => Refuse(UnexpectedBody)
  }

  /** `read_response`, the first frame of what is left on the connection. */
  method ReadResponse<B>(connection: Connection, budget: WireBudget, parse: Payload -> Option<Envelope<B>>)
    returns (r: Result<Envelope<B>, FrameError>)
    modifies connection, budget
    ensures var w, b := old(Deframe(connection.bytes, parse)), old(budget.Value());
      match Take(w, b)
      case Err(e) => r == Err(e)
      case Ok((e, charged)) =>
        r == Ok(e) && budget.Value() == charged && Deframe(connection.bytes, parse) == Rest(w)
  {
    ReadIsTake(connection.bytes, parse, budget.Value());
    var payload := ReadFrame(connection, budget);
    if payload.Err? { return Err(payload.error); }
    var envelope := parse(payload.value);
    if envelope.None? { return Err(InvalidJson); }
    r := Ok(envelope.value);
  }

  /** `expect_eof`. */
  method ExpectEof(connection: Connection) returns (eof: bool)
    ensures eof <==> connection.bytes == []
  {
    eof := connection.bytes == [];
  }

  /** A reader: Start, then the loop, over the bytes of a connection. */
  method ReadStream<S, C, A, E, V>(
    pr: Protocol<S, C, A, E, V>, connection: Connection, requestId: Uuid, budget: WireBudget,
    parse: Payload -> Option<Envelope<Body<S, C, E>>>) returns (r: Result<V, ClientError>)
    modifies connection, budget
    ensures r == old(Read(pr, Deframe(connection.bytes, parse), requestId, budget.Value())).result
  {
    var first := ReadResponse(connection, budget, parse);
    if first.Err? { return Err(Framing(first.error)); }
    var bad := EnvelopeError(first.value, requestId, 0);
    if bad.Some? { return Err(Violation(bad.value)); }
    if first.value.body.Error? {
      if first.value.snapshotId.Some? { return Err(Violation(SnapshotIdentity)); }
      EofIsAtEof(connection.bytes, parse);
      var eof := ExpectEof(connection);
      return if eof then Err(Daemon) else Err(Violation(TrailingData));
    }
    if !first.value.body.Start? { return Err(Violation(UnexpectedBody)); }
    var start := first.value.body.start;
    if first.value.snapshotId.None? || first.value.snapshotId.value == 0 { return Err(Violation(SnapshotIdentity)); }
    if !pr.validStart(start) { return Err(Violation(InvalidStart)); }
    r := ReadChunks(pr, connection, requestId, first.value.snapshotId.value, start, budget, parse);
  }

  /** The loop, from the frame after an accepted Start. */
  method ReadChunks<S, C, A, E, V>(
    pr: Protocol<S, C, A, E, V>, connection: Connection, requestId: Uuid, id: Uuid, start: S, budget: WireBudget,
    parse: Payload -> Option<Envelope<Body<S, C, E>>>) returns (r: Result<V, ClientError>)
    modifies connection, budget
    ensures r == Continue(pr, old(Deframe(connection.bytes, parse)), requestId, id, start, old(budget.Value()), 1,
                          pr.initial(start)).result
  {
    ghost var total :=
      Continue(pr, Deframe(connection.bytes, parse), requestId, id, start, budget.Value(), 1, pr.initial(start));
    var sequence, a := 1, pr.initial(start);
    while true
      invariant Continue(pr, Deframe(connection.bytes, parse), requestId, id, start, budget.Value(), sequence, a).result
             == total.result
      decreases |Deframe(connection.bytes, parse).frames|
    {
      var response := ReadResponse(connection, budget, parse);
      if response.Err? {
        return Err(if response.error.UnexpectedEof? then Violation(MissingTerminal) else Framing(response.error));
      }
      var bad := EnvelopeError(response.value, requestId, sequence);
      if bad.Some? { return Err(Violation(bad.value)); }
      if response.value.snapshotId != Some(id) { return Err(Violation(SnapshotIdentity)); }
      match response.value.body {
        case Chunk(chunk) =>
          var next := pr.accept(start, a, chunk);
          if next.Err? { return Err(Violation(next.error)); }
          a := next.value;
          if sequence >= U32_MAX { return Err(Violation(SequenceOverflow)); }
          sequence := sequence + 1;
        case End(end) =>
          var value := pr.finish(start, id, a, end);
          if value.Err? { return Err(Violation(value.error)); }
          EofIsAtEof(connection.bytes, parse);
          var eof := ExpectEof(connection);
          return if eof then Ok(value.value) else Err(Violation(TrailingData));
        case Error =>
          EofIsAtEof(connection.bytes, parse);
          var eof := ExpectEof(connection);
          return if eof then Err(Daemon) else Err(Violation(TrailingData));
        case _ =>
          return Err(Violation(UnexpectedBody));
      }
    }
  }

  // ----- what a legal response is

  function BodyOf<S, C, E>(f: Frame<Body<S, C, E>>): Body<S, C, E>
  {
    if f.envelope.Some? then f.envelope.value.body else Other
  }

  /** Frame `f` is well-sized, parses, and carries this request, this stream and this position. */
  predicate InStream<B>(f: Frame<B>, requestId: Uuid, id: Uuid, position: nat)
  {
    && 1 <= f.length <= MAX_FRAME_PAYLOAD_BYTES
    && f.envelope.Some?
    && f.envelope.value.version == WIRE_PROTOCOL_VERSION
    && f.envelope.value.requestId == requestId
    && f.envelope.value.sequence == position
    && f.envelope.value.snapshotId == Some(id)
  }

  /** The frames are Start, the chunks and End, at consecutive positions, followed by end of file. */
  predicate Carries<S(==), C(==), E(==)>(
    w: Wire<Body<S, C, E>>, requestId: Uuid, id: Uuid, start: S, chunks: seq<C>, end: E)
  {
    && w.tail.Closed?
    && id != 0
    && |w.frames| == |chunks| + 2
    && (forall i :: 0 <= i < |w.frames| ==> InStream(w.frames[i], requestId, id, i))
    && BodyOf(w.frames[0]) == Start(start)
    && (forall i :: 0 <= i < |chunks| ==> BodyOf(w.frames[i + 1]) == Chunk(chunks[i]))
    && BodyOf(w.frames[|chunks| + 1]) == End(end)
  }

  /** Accepting the chunks one after the other. */
  function Fold<S, C, A, E, V>(pr: Protocol<S, C, A, E, V>, start: S, a: A, chunks: seq<C>): Result<A, ProtocolError>
  {
    if chunks == [] then Ok(a)
    else
      match pr.accept(start, a, chunks[0])
      case Err(error) => Err(error)
      case Ok(next) => Fold(pr, start, next, chunks[1..])
  }

  /** Every chunk is accepted in turn and the end yields `value`. */
  predicate Yields<S, C, A, E, V(==)>(
    pr: Protocol<S, C, A, E, V>, id: Uuid, start: S, chunks: seq<C>, end: E, value: V)
  {
    && pr.validStart(start)
    && Fold(pr, start, pr.initial(start), chunks).Ok?
    && pr.finish(start, id, Fold(pr, start, pr.initial(start), chunks).value, end) == Ok(value)
  }

  /** Accepted chunks never outnumber the declared data frames, which with Start and End fit the frame limit. */
  ghost predicate Bounded<S(!new), C(!new), A, E, V>(pr: Protocol<S, C, A, E, V>, maxFrames: nat)
  {
    && (forall start: S :: pr.validStart(start) ==> pr.declared(start) + 2 <= maxFrames)
    && (forall start: S, chunks: seq<C> ::
          pr.validStart(start) && Fold(pr, start, pr.initial(start), chunks).Ok? ==> |chunks| <= pr.declared(start))
  }

  lemma {:induction false} FoldAppend<S, C, A, E, V>(
    pr: Protocol<S, C, A, E, V>, start: S, a: A, cs: seq<C>, ds: seq<C>)
    ensures Fold(pr, start, a, cs).Ok? ==>
              Fold(pr, start, a, cs + ds) == Fold(pr, start, Fold(pr, start, a, cs).value, ds)
    ensures Fold(pr, start, a, cs + ds).Ok? ==> Fold(pr, start, a, cs).Ok?
    decreases |cs|
  {
    if cs == [] {
      assert cs + ds == ds;
    } else {
      assert (cs + ds)[1..] == cs[1..] + ds;
      if pr.accept(start, a, cs[0]).Ok? {
        FoldAppend(pr, start, pr.accept(start, a, cs[0]).value, cs[1..], ds);
      }
    }
  }

  lemma FoldOneMore<S, C, A, E, V>(pr: Protocol<S, C, A, E, V>, start: S, a: A, done: seq<C>, c: C)
    requires Fold(pr, start, a, done).Ok?
    ensures pr.accept(start, Fold(pr, start, a, done).value, c).Ok? ==>
              Fold(pr, start, a, done + [c]) == pr.accept(start, Fold(pr, start, a, done).value, c)
  {
    FoldAppend(pr, start, a, done, [c]);
    assert [c][1..] == [];
  }

  // ----- completeness

  /** From frame `k` on, with the earlier chunks accepted, a legal response is read to its value. */
  lemma {:induction false} ContinueAccepts<S, C, A, E, V>(
    pr: Protocol<S, C, A, E, V>, w: Wire<Body<S, C, E>>, requestId: Uuid, id: Uuid, start: S, chunks: seq<C>, end: E,
    value: V, b: Budget, k: nat, a: A)
    requires Carries(w, requestId, id, start, chunks, end)
    requires k <= |chunks| && Fold(pr, start, a, chunks[k..]).Ok?
    requires pr.finish(start, id, Fold(pr, start, a, chunks[k..]).value, end) == Ok(value)
    requires Roomy(b) && Within(b, k + 1) && |w.frames| <= b.maxFrames && |w.frames| <= U32_MAX
    ensures Continue(pr, Wire(w.frames[k + 1..], w.tail), requestId, id, start, b, k + 1, a)
         == Outcome(Ok(value), |chunks| - k + 1)
    decreases |chunks| - k
  {
    var here := Wire(w.frames[k + 1..], w.tail);
    var f := w.frames[k + 1];
    assert InStream(f, requestId, id, k + 1);
    assert here.frames[0] == f;
    ChargeWithin(b, k + 1, f.length);
    var charged := Charge(b, f.length).value;
    assert Take(here, b) == Ok((f.envelope.value, charged));
    assert Rest(here) == Wire(w.frames[k + 2..], w.tail);
    if k < |chunks| {
      assert BodyOf(f) == Chunk(chunks[k]);
      assert chunks[k..][0] == chunks[k] && chunks[k..][1..] == chunks[k + 1..];
      var next := pr.accept(start, a, chunks[k]).value;
      ContinueAccepts(pr, w, requestId, id, start, chunks, end, value, charged, k + 1, next);
    }
  }

  /** Every legal response that fits the frame limit is read to its value. */
  lemma ReadAccepts<S, C, A, E, V>(
    pr: Protocol<S, C, A, E, V>, w: Wire<Body<S, C, E>>, requestId: Uuid, b: Budget, id: Uuid, start: S,
    chunks: seq<C>, end: E, value: V)
    requires Roomy(b) && Within(b, 0) && b.maxFrames <= U32_MAX && |w.frames| <= b.maxFrames
    requires Carries(w, requestId, id, start, chunks, end) && Yields(pr, id, start, chunks, end, value)
    ensures Read(pr, w, requestId, b) == Outcome(Ok(value), |chunks| + 2)
  {
    var f := w.frames[0];
    assert InStream(f, requestId, id, 0);
    ChargeWithin(b, 0, f.length);
    var charged := Charge(b, f.length).value;
    assert Take(w, b) == Ok((f.envelope.value, charged));
    assert chunks[0..] == chunks;
    ContinueAccepts(pr, w, requestId, id, start, chunks, end, value, charged, 0, pr.initial(start));
  }

  // ----- soundness

  /** The frames are the chunks and End, from position `sequence` on, followed by end of file. */
  predicate CarriesRest<S(==), C(==), E(==)>(
    w: Wire<Body<S, C, E>>, requestId: Uuid, id: Uuid, sequence: nat, chunks: seq<C>, end: E)
  {
    && w.tail.Closed? && |w.frames| == |chunks| + 1
    && (forall i :: 0 <= i < |w.frames| ==> InStream(w.frames[i], requestId, id, sequence + i))
    && (forall i :: 0 <= i < |chunks| ==> BodyOf(w.frames[i]) == Chunk(chunks[i]))
    && BodyOf(w.frames[|chunks|]) == End(end)
  }

  lemma CarriesCons<S, C, E>(
    w: Wire<Body<S, C, E>>, requestId: Uuid, id: Uuid, sequence: nat, chunk: C, later: seq<C>, end: E)
    requires w.frames != [] && InStream(w.frames[0], requestId, id, sequence) && BodyOf(w.frames[0]) == Chunk(chunk)
    requires CarriesRest(Rest(w), requestId, id, sequence + 1, later, end)
    ensures CarriesRest(w, requestId, id, sequence, [chunk] + later, end)
  {
    var chunks := [chunk] + later;
    assert forall i :: 0 < i < |w.frames| ==> w.frames[i] == Rest(w).frames[i - 1];
    forall i | 0 <= i < |w.frames| ensures InStream(w.frames[i], requestId, id, sequence + i) {
      if i > 0 { assert InStream(Rest(w).frames[i - 1], requestId, id, sequence + 1 + (i - 1)); }
    }
    forall i | 0 <= i < |chunks| ensures BodyOf(w.frames[i]) == Chunk(chunks[i]) {
      if i > 0 { assert BodyOf(Rest(w).frames[i - 1]) == Chunk(later[i - 1]); }
    }
  }

  /** What a successful rest of the loop says about the frames it read. */
  lemma {:induction false} ContinueIsLegal<S, C, A, E, V>(
    pr: Protocol<S, C, A, E, V>, w: Wire<Body<S, C, E>>, requestId: Uuid, id: Uuid, start: S, b: Budget,
    sequence: nat, a: A) returns (chunks: seq<C>, end: E)
    requires Continue(pr, w, requestId, id, start, b, sequence, a).result.Ok?
    ensures CarriesRest(w, requestId, id, sequence, chunks, end)
    ensures Fold(pr, start, a, chunks).Ok?
    ensures pr.finish(start, id, Fold(pr, start, a, chunks).value, end)
         == Ok(Continue(pr, w, requestId, id, start, b, sequence, a).result.value)
    decreases |w.frames|
  {
    var e, charged := Take(w, b).value.0, Take(w, b).value.1;
    assert InStream(w.frames[0], requestId, id, sequence);
    match e.body
    case Chunk(chunk) =>
      var next := pr.accept(start, a, chunk).value;
      var later;
      later, end := ContinueIsLegal(pr, Rest(w), requestId, id, start, charged, sequence + 1, next);
      chunks := [chunk] + later;
      assert chunks[1..] == later;
      CarriesCons(w, requestId, id, sequence, chunk, later, end);
    case End(last) =>
      chunks, end := [], last;
  }

  /** A value is returned only for a legal response, which carries exactly it. */
  lemma ReadIsLegal<S, C, A, E, V>(pr: Protocol<S, C, A, E, V>, w: Wire<Body<S, C, E>>, requestId: Uuid, b: Budget)
    returns (id: Uuid, start: S, chunks: seq<C>, end: E)
    requires Read(pr, w, requestId, b).result.Ok?
    ensures Carries(w, requestId, id, start, chunks, end)
    ensures Yields(pr, id, start, chunks, end, Read(pr, w, requestId, b).result.value)
  {
    var e, charged := Take(w, b).value.0, Take(w, b).value.1;
    id, start := e.snapshotId.value, e.body.start;
    var rest := Rest(w);
    chunks, end := ContinueIsLegal(pr, rest, requestId, id, start, charged, 1, pr.initial(start));
    assert InStream(w.frames[0], requestId, id, 0);
    forall i | 0 <= i < |w.frames|
      ensures InStream(w.frames[i], requestId, id, i)
    {
      assert i > 0 ==> w.frames[i] == rest.frames[i - 1];
    }
    forall i | 0 <= i < |chunks|
      ensures BodyOf(w.frames[i + 1]) == Chunk(chunks[i])
    {
      assert w.frames[i + 1] == rest.frames[i];
    }
    assert w.frames[|chunks| + 1] == rest.frames[|chunks|];
  }

  // ----- limits

  /** What the rest of a read may report, with `done` chunks accepted. */
  predicate KeepsLimits<S, C, E, V>(w: Wire<Body<S, C, E>>, r: Outcome<V>, done: nat, declared: nat)
  {
    && done + 1 + r.taken <= declared + 2
    && r.result != Err(Framing(FrameLimitExceeded))
    && (r.result == Err(Framing(WireBytesExceeded)) ==> ReachesOversize(w, r.taken))
  }

  /** One more accepted chunk leaves the rest of the read within limits if what follows it is. */
  lemma LimitsAfterChunk<S, C, E, V>(w: Wire<Body<S, C, E>>, later: Outcome<V>, done: nat, declared: nat)
    requires w.frames != [] && KeepsLimits(Rest(w), later, done + 1, declared)
    ensures KeepsLimits(w, Outcome(later.result, later.taken + 1), done, declared)
  {
    if later.result == Err(Framing(WireBytesExceeded)) && later.taken <= |Rest(w).frames| {
      assert Rest(w).frames[later.taken - 1] == w.frames[later.taken];
    }
  }

  lemma BoundedBy<S(!new), C(!new), A, E, V>(pr: Protocol<S, C, A, E, V>, maxFrames: nat, start: S, done: seq<C>)
    requires Bounded(pr, maxFrames) && pr.validStart(start) && Fold(pr, start, pr.initial(start), done).Ok?
    ensures |done| <= pr.declared(start) && pr.declared(start) + 2 <= maxFrames
  {
  }

  /** An accepted chunk: the budget is charged and the longer list of chunks is accepted. */
  lemma ChunkIsCharged<S, C, A, E, V>(
    pr: Protocol<S, C, A, E, V>, w: Wire<Body<S, C, E>>, start: S, done: seq<C>, b: Budget, a: A)
    requires Roomy(b) && Within(b, |done| + 1) && |done| + 1 < b.maxFrames && Take(w, b).Ok?
    requires Fold(pr, start, pr.initial(start), done) == Ok(a)
    ensures var e, charged := Take(w, b).value.0, Take(w, b).value.1;
      && Roomy(charged) && Within(charged, |done| + 2) && charged.maxFrames == b.maxFrames
      && (e.body.Chunk? && pr.accept(start, a, e.body.chunk).Ok? ==>
            Fold(pr, start, pr.initial(start), done + [e.body.chunk]) == pr.accept(start, a, e.body.chunk))
  {
    var e := Take(w, b).value.0;
    ChargeWithin(b, |done| + 1, w.frames[0].length);
    if e.body.Chunk? {
      FoldOneMore(pr, start, pr.initial(start), done, e.body.chunk);
    }
  }

  /** Once a Start is accepted, the frame limit never refuses and the byte limit only refuses oversized frames. */
  lemma {:induction false} ContinueWithinLimits<S(!new), C(!new), A, E, V>(
    pr: Protocol<S, C, A, E, V>, w: Wire<Body<S, C, E>>, requestId: Uuid, id: Uuid, start: S, done: seq<C>,
    b: Budget, a: A)
    requires Bounded(pr, b.maxFrames) && pr.validStart(start)
    requires Fold(pr, start, pr.initial(start), done) == Ok(a)
    requires Roomy(b) && Within(b, |done| + 1)
    ensures KeepsLimits(w, Continue(pr, w, requestId, id, start, b, |done| + 1, a), |done|, pr.declared(start))
    decreases |w.frames|
  {
    BoundedBy(pr, b.maxFrames, start, done);
    if Take(w, b).Err? {
      TakeRefusal(w, b, |done| + 1);
    } else {
      var e, charged := Take(w, b).value.0, Take(w, b).value.1;
      ChunkIsCharged(pr, w, start, done, b, a);
      if e.body.Chunk? && pr.accept(start, a, e.body.chunk).Ok? && |done| + 1 < U32_MAX {
        var next, longer := pr.accept(start, a, e.body.chunk).value, done + [e.body.chunk];
        ContinueWithinLimits(pr, Rest(w), requestId, id, start, longer, charged, next);
        LimitsAfterChunk(w, Continue(pr, Rest(w), requestId, id, start, charged, |longer| + 1, next),
                         |done|, pr.declared(start));
      }
    }
  }

  /**
   Over a whole read, from an untouched budget: at most one read more than the declared data frames plus
   the Start, no refusal by the frame limit, and a refusal by the byte limit only at an oversized frame.
   */
  lemma ReadWithinLimits<S(!new), C(!new), A, E, V>(
    pr: Protocol<S, C, A, E, V>, w: Wire<Body<S, C, E>>, requestId: Uuid, b: Budget)
    requires Bounded(pr, b.maxFrames) && Roomy(b) && Within(b, 0) && b.maxFrames >= 1
    ensures var r := Read(pr, w, requestId, b);
      && r.result != Err(Framing(FrameLimitExceeded))
      && (r.result == Err(Framing(WireBytesExceeded)) ==> ReachesOversize(w, r.taken))
      && (r.taken > 1 ==>
            && w.frames != [] && BodyOf(w.frames[0]).Start?
            && r.taken <= pr.declared(BodyOf(w.frames[0]).start) + 2 <= b.maxFrames)
  {
    if Take(w, b).Ok? {
      var e, charged := Take(w, b).value.0, Take(w, b).value.1;
      ChargeWithin(b, 0, w.frames[0].length);
      if e.body.Start? && pr.validStart(e.body.start) && e.snapshotId.Some? {
        var start := e.body.start;
        ContinueWithinLimits(pr, Rest(w), requestId, e.snapshotId.value, start, [], charged, pr.initial(start));
      }
    } else {
      TakeRefusal(w, b, 0);
    }
  }

  /** The read numbered `taken` met a frame longer than the payload limit. */
  predicate ReachesOversize<B>(w: Wire<B>, taken: nat)
  {
    && 1 <= taken <= |w.frames| + 1
    && (if taken <= |w.frames| then w.frames[taken - 1].length > MAX_FRAME_PAYLOAD_BYTES
        else w.tail.PartialPayload? && w.tail.length > MAX_FRAME_PAYLOAD_BYTES)
  }

  lemma TakeRefusal<B>(w: Wire<B>, b: Budget, k: nat)
    requires Roomy(b) && Within(b, k) && k < b.maxFrames && Take(w, b).Err?
    ensures Take(w, b).error != FrameLimitExceeded
    ensures Take(w, b).error == WireBytesExceeded ==> ReachesOversize(w, 1)
  {
    if w.frames != [] {
      if Charge(b, w.frames[0].length).Err? { RefusedIsOversize(b, k, w.frames[0].length); }
    } else if w.tail.PartialPayload? {
      if Charge(b, w.tail.length).Err? { RefusedIsOversize(b, k, w.tail.length); }
    }
  }

  // ----- errors

  /** The checks of a protocol only report bad chunks and bad ends. */
  ghost predicate Plain<S(!new), C(!new), A(!new), E(!new), V>(pr: Protocol<S, C, A, E, V>)
  {
    && (forall s, a, c :: pr.accept(s, a, c).Err? ==>
          pr.accept(s, a, c).error.InvalidChunk? || pr.accept(s, a, c).error.SequenceOverflow?)
    && (forall s, id, a, e :: pr.finish(s, id, a, e).Err? ==>
          pr.finish(s, id, a, e).error.InvalidEnd? || pr.finish(s, id, a, e).error.UnexpectedBody?)
  }

  /** What each way to end says about the frame it ended at. */
  predicate Explained<S, C, E, V>(w: Wire<Body<S, C, E>>, r: Outcome<V>)
  {
    && (r.result == Err(Daemon) ==>
          1 <= r.taken == |w.frames| && w.tail.Closed? && BodyOf(w.frames[r.taken - 1]).Error?)
    && (r.result == Err(Violation(TrailingData)) ==>
          && 1 <= r.taken <= |w.frames| && (r.taken < |w.frames| || !w.tail.Closed?)
          && (BodyOf(w.frames[r.taken - 1]).End? || BodyOf(w.frames[r.taken - 1]).Error?))
    && (r.result == Err(Violation(MissingTerminal)) ==> r.taken == |w.frames| + 1)
    && (r.result == Err(Framing(InvalidJson)) ==>
          1 <= r.taken <= |w.frames| && w.frames[r.taken - 1].envelope.None?)
  }

  lemma TakeExplained<B>(w: Wire<B>, b: Budget)
    requires Take(w, b).Err?
    ensures Take(w, b).error.UnexpectedEof? ==> w.frames == []
    ensures Take(w, b).error.InvalidJson? ==> w.frames != [] && w.frames[0].envelope.None?
  {
  }

  lemma {:induction false} ContinueExplained<S(!new), C(!new), A(!new), E(!new), V>(
    pr: Protocol<S, C, A, E, V>, w: Wire<Body<S, C, E>>, requestId: Uuid, id: Uuid, start: S, b: Budget,
    sequence: nat, a: A)
    requires Plain(pr)
    ensures Explained(w, Continue(pr, w, requestId, id, start, b, sequence, a))
    decreases |w.frames|
  {
    if Take(w, b).Err? {
      TakeExplained(w, b);
    } else {
      var e, charged := Take(w, b).value.0, Take(w, b).value.1;
      assert BodyOf(w.frames[0]) == e.body;
      if e.body.Chunk? && pr.accept(start, a, e.body.chunk).Ok? {
        var next := pr.accept(start, a, e.body.chunk).value;
        ContinueExplained(pr, Rest(w), requestId, id, start, charged, sequence + 1, next);
        assert forall i :: 0 <= i < |Rest(w).frames| ==> Rest(w).frames[i] == w.frames[i + 1];
      }
    }
  }

  /**
   Errors mean what they say: a daemon error is reported only for an Error response followed by end of
   file, trailing data only when something follows an End or an Error, a missing terminal only when the
   frames ran out, and invalid JSON only at a frame that does not parse.
   */
  lemma ReadErrorsExplained<S(!new), C(!new), A(!new), E(!new), V>(
    pr: Protocol<S, C, A, E, V>, w: Wire<Body<S, C, E>>, requestId: Uuid, b: Budget)
    requires Plain(pr)
    ensures Explained(w, Read(pr, w, requestId, b))
  {
    if Take(w, b).Err? {
      TakeExplained(w, b);
    } else {
      var e, charged := Take(w, b).value.0, Take(w, b).value.1;
      assert BodyOf(w.frames[0]) == e.body;
      if e.body.Start? && e.snapshotId.Some? {
        var start := e.body.start;
        ContinueExplained(pr, Rest(w), requestId, e.snapshotId.value, start, charged, 1, pr.initial(start));
        assert forall i :: 0 <= i < |Rest(w).frames| ==> Rest(w).frames[i] == w.frames[i + 1];
      }
    }
  }
}
