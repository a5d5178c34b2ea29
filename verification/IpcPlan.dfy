/** A response about to be written: bodies become sized frames (`crates/ipc/src/server.rs`). */
module IpcPlan {
  import opened Wrappers
  import opened Common
  import opened LengthPrefix
  import opened IpcFrame
  import opened IpcStream

  /** The request answered, the identity of the stream, and the size of a message as JSON. */
  datatype Context<!B> = Context(requestId: Uuid, id: Uuid, size: Envelope<B> -> nat)

  function At<B>(x: Context<B>, sequence: U32, body: B): Envelope<B>
  {
    Envelope(WIRE_PROTOCOL_VERSION, x.requestId, sequence, Some(x.id), body)
  }

  predicate FitsFrame<B>(x: Context<B>, sequence: nat, body: B)
  {
    sequence <= U32_MAX && x.size(At(x, sequence, body)) <= MAX_FRAME_PAYLOAD_BYTES
  }

  /** Body `i` has a non-empty encoding within the payload limit at sequence `i`. */
  predicate BodiesFit<B>(x: Context<B>, bodies: seq<B>)
  {
    forall i :: 0 <= i < |bodies| ==> FitsFrame(x, i, bodies[i]) && x.size(At(x, i, bodies[i])) > 0
  }

  /** Frame `i` carries body `i` at sequence `i`, and the stream ends after the last. */
  predicate Encodes<B(==)>(x: Context<B>, w: Wire<B>, bodies: seq<B>)
  {
    && w.tail.Closed? && |w.frames| == |bodies| <= U32_MAX
    && forall i :: 0 <= i < |bodies| ==>
         && w.frames[i].envelope == Some(At(x, i, bodies[i]))
         && 1 <= w.frames[i].length <= MAX_FRAME_PAYLOAD_BYTES
  }

  /**
   `encode_response` on each body and the check of the encoded plan. With limits that have bytes for all
   their frames, it succeeds exactly when the bodies fit the frame limit and each fits its frame.
   */
  method Encode<B>(x: Context<B>, bodies: seq<B>, limits: Budget) returns (r: Option<Wire<B>>)
    requires Roomy(limits) && limits.maxFrames <= U32_MAX
    ensures r.Some? <==> |bodies| <= limits.maxFrames && BodiesFit(x, bodies)
    ensures r.Some? ==> Encodes(x, r.value, bodies)
  {
    if |bodies| > limits.maxFrames { return None; }
    var frames: seq<Frame<B>> := [];
    var wireBytes := 0;
    for i := 0 to |bodies|
      invariant |frames| == i
      invariant forall j :: 0 <= j < i ==> frames[j].envelope == Some(At(x, j, bodies[j]))
      invariant forall j :: 0 <= j < i ==> 1 <= frames[j].length <= MAX_FRAME_PAYLOAD_BYTES
      invariant forall j :: 0 <= j < i ==> FitsFrame(x, j, bodies[j]) && x.size(At(x, j, bodies[j])) > 0
      invariant 0 <= wireBytes <= i * (PREFIX_BYTES + MAX_FRAME_PAYLOAD_BYTES)
    {
      var e := At(x, i, bodies[i]);
      var length := x.size(e);
      if length == 0 || length > MAX_FRAME_PAYLOAD_BYTES {
        assert !FitsFrame(x, i, bodies[i]) || x.size(At(x, i, bodies[i])) == 0;
        return None;
      }
      wireBytes := wireBytes + PREFIX_BYTES + length;
      FramesHaveRoom(limits, i + 1);
      if wireBytes > limits.maxWireBytes { return None; }
      frames := frames + [Frame(length, Some(e))];
    }
    r := Some(Wire(frames, Closed));
  }

  lemma FramesHaveRoom(limits: Budget, n: nat)
    requires Roomy(limits) && n <= limits.maxFrames
    ensures n * (PREFIX_BYTES + MAX_FRAME_PAYLOAD_BYTES) <= limits.maxWireBytes
  {
  }

  /** The bodies of a response: Start, the chunks, End. */
  function Bodies<S, C, E>(start: S, chunks: seq<C>, end: E): seq<Body<S, C, E>>
  {
    [Start(start)] + seq(|chunks|, i requires 0 <= i < |chunks| => Chunk(chunks[i])) + [End(end)]
  }

  /** Encoded, they carry exactly that Start, those chunks and that End. */
  lemma EncodedCarries<S, C, E>(
    x: Context<Body<S, C, E>>, w: Wire<Body<S, C, E>>, start: S, chunks: seq<C>, end: E)
    requires x.id != 0 && Encodes(x, w, Bodies(start, chunks, end))
    ensures Carries(w, x.requestId, x.id, start, chunks, end)
  {
    var bodies := Bodies(start, chunks, end);
    assert forall i :: 0 <= i < |chunks| ==> bodies[i + 1] == Chunk(chunks[i]);
  }
}
