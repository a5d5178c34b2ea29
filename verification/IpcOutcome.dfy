/** What each possible next frame makes a reader report (`crates/ipc/src/client.rs`). */
module IpcOutcome {
  import opened Wrappers
  import opened Common
  import opened LengthPrefix
  import opened IpcFrame
  import opened IpcStream

  /** A frame within the payload limit that parses. */
  predicate Legible<B>(f: Frame<B>)
  {
    1 <= f.length <= MAX_FRAME_PAYLOAD_BYTES && f.envelope.Some?
  }

  /** A legible frame of this protocol version, this request and this position. */
  predicate Addressed<B>(f: Frame<B>, requestId: Uuid, position: nat)
  {
    && Legible(f)
    && f.envelope.value.version == WIRE_PROTOCOL_VERSION
    && f.envelope.value.requestId == requestId
    && f.envelope.value.sequence == position
  }

  /** The first thing wrong with a legible frame that is not addressed. */
  function Misaddressed<B>(f: Frame<B>, requestId: Uuid): ProtocolError
    requires Legible(f)
  {
    if f.envelope.value.version != WIRE_PROTOCOL_VERSION then Version
    else if f.envelope.value.requestId != requestId then RequestId
    else Sequence
  }

  /** A last frame: the verdict stands only if the stream ends there. */
  function Terminal<B, V>(w: Wire<B>, position: nat, verdict: Result<V, ClientError>): Result<V, ClientError>
  {
    if |w.frames| == position + 1 && w.tail.Closed? then verdict else Err(Violation(TrailingData))
  }

  /** A stream that stops in or before a frame no longer than the payload limit. */
  predicate StopsShort(t: Tail)
  {
    t.PartialPayload? ==> 1 <= t.length <= MAX_FRAME_PAYLOAD_BYTES
  }

  /** A frame refused for its size: over the payload limit or, with that, over the byte limit. */
  predicate RefusedForSize<V>(r: Result<V, ClientError>)
  {
    && r.Err? && r.error.Framing?
    && (r.error.frame.Oversize? || r.error.frame.WireBytesExceeded? || r.error.frame.BudgetOverflow?)
  }

  // ----- the first frame

  /**
   The first response. An Error without an identity is the daemon's own answer and is reported as such exactly
   when the stream ends there; one that carries an identity, and a Start without one, are identity errors; a
   Start that does not validate is refused; any other body is unexpected.
   */
  lemma FirstFrameDecides<S, C, A, E, V>(
    pr: Protocol<S, C, A, E, V>, w: Wire<Body<S, C, E>>, requestId: Uuid, b: Budget)
    requires Roomy(b) && Within(b, 0) && b.maxFrames >= 1
    ensures var r := Read(pr, w, requestId, b).result;
      && (w.frames == [] && StopsShort(w.tail) ==> r == Err(Framing(UnexpectedEof)))
      && (w.frames != [] ==>
            var f := w.frames[0];
            && (f.length == 0 ==> r == Err(Framing(Empty)))
            && (f.length > MAX_FRAME_PAYLOAD_BYTES ==> RefusedForSize(r))
            && (1 <= f.length <= MAX_FRAME_PAYLOAD_BYTES && f.envelope.None? ==> r == Err(Framing(InvalidJson)))
            && (Legible(f) && !Addressed(f, requestId, 0) ==> r == Err(Violation(Misaddressed(f, requestId))))
            && (Addressed(f, requestId, 0) ==>
                  var e := f.envelope.value;
                  match e.body
                  case Error =>
                    r == if e.snapshotId.Some? then Err(Violation(SnapshotIdentity)) else Terminal(w, 0, Err(Daemon))
                  case Start(start) =>
                    && (e.snapshotId.None? || e.snapshotId == Some(0) ==> r == Err(Violation(SnapshotIdentity)))
                    && (e.snapshotId.Some? && e.snapshotId != Some(0) && !pr.validStart(start) ==>
                          r == Err(Violation(InvalidStart)))
                  case _ => r == Err(Violation(UnexpectedBody))))
  {
    if w.frames != [] && 1 <= w.frames[0].length <= MAX_FRAME_PAYLOAD_BYTES {
      ChargeWithin(b, 0, w.frames[0].length);
      assert |Rest(w).frames| == |w.frames| - 1;
    } else if w.frames != [] && w.frames[0].length > 0 && Charge(b, w.frames[0].length).Err? {
      RefusedIsOversize(b, 0, w.frames[0].length);
    } else if w.frames == [] && w.tail.PartialPayload? && 1 <= w.tail.length <= MAX_FRAME_PAYLOAD_BYTES {
      ChargeWithin(b, 0, w.tail.length);
    }
  }

  // ----- after Start and any number of accepted chunks

  /** The stream opens with Start and these chunks, in place. */
  predicate OpensWith<S(==), C(==), E>(w: Wire<Body<S, C, E>>, requestId: Uuid, id: Uuid, start: S, chunks: seq<C>)
  {
    && id != 0 && |chunks| + 1 <= |w.frames|
    && (forall i :: 0 <= i <= |chunks| ==> InStream(w.frames[i], requestId, id, i))
    && BodyOf(w.frames[0]) == Start(start)
    && (forall i :: 0 <= i < |chunks| ==> BodyOf(w.frames[i + 1]) == Chunk(chunks[i]))
  }

  /** What is left of a wire after `k` frames. */
  function After<B>(w: Wire<B>, k: nat): Wire<B>
    requires k <= |w.frames|
  {
    Wire(w.frames[k..], w.tail)
  }

  lemma AfterOne<B>(w: Wire<B>, k: nat)
    requires k < |w.frames|
    ensures After(w, k).frames != [] && After(w, k).frames[0] == w.frames[k] && Rest(After(w, k)) == After(w, k + 1)
  {
  }

  /** Reading through one accepted chunk. */
  lemma SkipOne<S, C, A, E, V>(
    pr: Protocol<S, C, A, E, V>, w: Wire<Body<S, C, E>>, requestId: Uuid, id: Uuid, start: S, c: C, b: Budget,
    k: nat, a: A) returns (charged: Budget)
    requires k < |w.frames| && InStream(w.frames[k], requestId, id, k) && BodyOf(w.frames[k]) == Chunk(c)
    requires pr.accept(start, a, c).Ok? && k < U32_MAX
    requires Roomy(b) && Within(b, k) && k < b.maxFrames
    ensures Roomy(charged) && Within(charged, k + 1) && charged.maxFrames == b.maxFrames
    ensures Continue(pr, After(w, k), requestId, id, start, b, k, a).result
         == Continue(pr, After(w, k + 1), requestId, id, start, charged, k + 1, pr.accept(start, a, c).value).result
  {
    AfterOne(w, k);
    ChargeWithin(b, k, w.frames[k].length);
    charged := Charge(b, w.frames[k].length).value;
    assert Take(After(w, k), b) == Ok((w.frames[k].envelope.value, charged));
  }

  /** Reading through the chunks from position `k` on. */
  lemma {:induction false} SkipChunks<S, C, A, E, V>(
    pr: Protocol<S, C, A, E, V>, w: Wire<Body<S, C, E>>, requestId: Uuid, id: Uuid, start: S, chunks: seq<C>,
    b: Budget, k: nat, a: A) returns (later: Budget)
    requires OpensWith(w, requestId, id, start, chunks) && k <= |chunks|
    requires Fold(pr, start, a, chunks[k..]).Ok?
    requires Roomy(b) && Within(b, k + 1) && |chunks| + 1 <= b.maxFrames <= U32_MAX
    ensures Roomy(later) && Within(later, |chunks| + 1) && later.maxFrames == b.maxFrames
    ensures Continue(pr, After(w, k + 1), requestId, id, start, b, k + 1, a).result
         == Continue(pr, After(w, |chunks| + 1), requestId, id, start, later, |chunks| + 1,
                     Fold(pr, start, a, chunks[k..]).value).result
    decreases |chunks| - k
  {
    if k == |chunks| {
      later := b;
    } else {
      assert chunks[k..][0] == chunks[k] && chunks[k..][1..] == chunks[k + 1..];
      assert BodyOf(w.frames[k + 1]) == Chunk(chunks[k]);
      var charged := SkipOne(pr, w, requestId, id, start, chunks[k], b, k + 1, a);
      later := SkipChunks(pr, w, requestId, id, start, chunks, charged, k + 1, pr.accept(start, a, chunks[k]).value);
    }
  }

  /** A read that opens with Start and accepted chunks goes on at the frame after them. */
  lemma ReadGoesOn<S, C, A, E, V>(
    pr: Protocol<S, C, A, E, V>, w: Wire<Body<S, C, E>>, requestId: Uuid, b: Budget, id: Uuid, start: S,
    chunks: seq<C>) returns (later: Budget)
    requires OpensWith(w, requestId, id, start, chunks) && pr.validStart(start)
    requires Fold(pr, start, pr.initial(start), chunks).Ok?
    requires Roomy(b) && Within(b, 0) && |chunks| + 1 <= b.maxFrames <= U32_MAX
    ensures Roomy(later) && Within(later, |chunks| + 1) && later.maxFrames == b.maxFrames
    ensures Read(pr, w, requestId, b).result
         == Continue(pr, After(w, |chunks| + 1), requestId, id, start, later, |chunks| + 1,
                     Fold(pr, start, pr.initial(start), chunks).value).result
  {
    assert InStream(w.frames[0], requestId, id, 0);
    ChargeWithin(b, 0, w.frames[0].length);
    var charged := Charge(b, w.frames[0].length).value;
    assert Take(w, b) == Ok((w.frames[0].envelope.value, charged));
    assert Rest(w) == After(w, 1) && chunks[0..] == chunks;
    later := SkipChunks(pr, w, requestId, id, start, chunks, charged, 0, pr.initial(start));
  }

  /** What the loop reports at a frame of this position. */
  predicate FrameDecides<S, C, A, E, V(==)>(
    pr: Protocol<S, C, A, E, V>, w: Wire<Body<S, C, E>>, requestId: Uuid, id: Uuid, start: S, k: nat, a: A,
    r: Result<V, ClientError>)
    requires k < |w.frames|
  {
    var f := w.frames[k];
    && (f.length == 0 ==> r == Err(Framing(Empty)))
    && (f.length > MAX_FRAME_PAYLOAD_BYTES ==> RefusedForSize(r))
    && (1 <= f.length <= MAX_FRAME_PAYLOAD_BYTES && f.envelope.None? ==> r == Err(Framing(InvalidJson)))
    && (Legible(f) && !Addressed(f, requestId, k) ==> r == Err(Violation(Misaddressed(f, requestId))))
    && (Addressed(f, requestId, k) && f.envelope.value.snapshotId != Some(id) ==>
          r == Err(Violation(SnapshotIdentity)))
    && (InStream(f, requestId, id, k) ==>
          match f.envelope.value.body
          case Error => r == Terminal(w, k, Err(Daemon))
          case End(end) =>
            (match pr.finish(start, id, a, end)
             case Err(e) => r == Err(Violation(e))
             case Ok(value) => r == Terminal(w, k, Ok(value)))
          case Chunk(c) => pr.accept(start, a, c).Err? ==> r == Err(Violation(pr.accept(start, a, c).error))
          case _ => r == Err(Violation(UnexpectedBody)))
  }

  lemma ContinueDecides<S, C, A, E, V>(
    pr: Protocol<S, C, A, E, V>, w: Wire<Body<S, C, E>>, requestId: Uuid, id: Uuid, start: S, b: Budget, k: nat, a: A)
    requires k <= |w.frames| && Roomy(b) && Within(b, k) && k < b.maxFrames
    ensures var r := Continue(pr, After(w, k), requestId, id, start, b, k, a).result;
      if k < |w.frames| then FrameDecides(pr, w, requestId, id, start, k, a, r)
      else StopsShort(w.tail) ==> r == Err(Violation(MissingTerminal))
  {
    if k < |w.frames| {
      AfterOne(w, k);
      var f := w.frames[k];
      if 1 <= f.length <= MAX_FRAME_PAYLOAD_BYTES {
        ChargeWithin(b, k, f.length);
        assert AtEof(After(w, k + 1)) <==> |w.frames| == k + 1 && w.tail.Closed?;
      } else if f.length > 0 && Charge(b, f.length).Err? {
        RefusedIsOversize(b, k, f.length);
      }
    } else if w.tail.PartialPayload? && 1 <= w.tail.length <= MAX_FRAME_PAYLOAD_BYTES {
      ChargeWithin(b, k, w.tail.length);
    }
  }

  /**
   After Start and any accepted chunks, the next frame decides: an Error in place is the daemon's error, and an
   End in place the value or its refusal, exactly when the stream ends there and trailing data otherwise; a
   refused chunk, a stray frame and an unexpected body are reported as what they are; and a stream that stops
   without a terminal frame is reported as missing it.
   */
  lemma NextFrameDecides<S(!new), C(!new), A, E, V>(
    pr: Protocol<S, C, A, E, V>, w: Wire<Body<S, C, E>>, requestId: Uuid, b: Budget, id: Uuid, start: S, chunks: seq<C>)
    requires OpensWith(w, requestId, id, start, chunks) && pr.validStart(start)
    requires Fold(pr, start, pr.initial(start), chunks).Ok?
    requires Bounded(pr, b.maxFrames) && Roomy(b) && Within(b, 0) && b.maxFrames <= U32_MAX
    ensures var r := Read(pr, w, requestId, b).result;
            var k, a := |chunks| + 1, Fold(pr, start, pr.initial(start), chunks).value;
      if k < |w.frames| then FrameDecides(pr, w, requestId, id, start, k, a, r)
      else StopsShort(w.tail) ==> r == Err(Violation(MissingTerminal))
  {
    BoundedBy(pr, b.maxFrames, start, chunks);
    var later := ReadGoesOn(pr, w, requestId, b, id, start, chunks);
    ContinueDecides(pr, w, requestId, id, start, later, |chunks| + 1, Fold(pr, start, pr.initial(start), chunks).value);
  }
}
