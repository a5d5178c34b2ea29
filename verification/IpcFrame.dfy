/** IPC frames and the wire budget of a response (`crates/ipc/src/frame.rs`). */
module IpcFrame {
  import opened Wrappers
  import opened Common
  import opened LengthPrefix

  const MAX_FRAME_PAYLOAD_BYTES: nat := 65_536
  const MAX_RESPONSE_FRAMES: nat := 130
  const MAX_RESPONSE_WIRE_BYTES: nat := 9 * 1024 * 1024
  const MAX_CHUNK_RECORDS: nat := 32
  const MAX_NOTES_EXPORT_FRAMES: nat := 600
  const MAX_NOTES_EXPORT_WIRE_BYTES: nat := 40 * 1024 * 1024
  const USIZE_MAX: nat := 0xffff_ffff_ffff_ffff

  datatype FrameError =
    | UnexpectedEof | Empty | Oversize | FrameLimitExceeded | WireBytesExceeded | BudgetOverflow | InvalidJson

  datatype ProtocolError =
    | MissingTerminal | Version | RequestId | Sequence | SequenceOverflow | SnapshotIdentity | UnexpectedBody
    | InvalidStart | InvalidChunk | InvalidEnd | TrailingData

  /** `Daemon` is an error response the daemon sent. */
  datatype ClientError = Framing(frame: FrameError) | Violation(protocol: ProtocolError) | Daemon

  datatype Budget = Budget(maxFrames: nat, maxWireBytes: nat, frames: nat, wireBytes: nat)

  const RESPONSE_BUDGET := Budget(MAX_RESPONSE_FRAMES, MAX_RESPONSE_WIRE_BYTES, 0, 0)
  const EXPORT_BUDGET := Budget(MAX_NOTES_EXPORT_FRAMES, MAX_NOTES_EXPORT_WIRE_BYTES, 0, 0)

  /** What `ObservePayloadLen` must do to the counters. */
  function Charge(b: Budget, length: nat): Result<Budget, FrameError>
  {
    if b.frames + 1 > USIZE_MAX then Err(BudgetOverflow)
    else if b.frames + 1 > b.maxFrames then Err(FrameLimitExceeded)
    else if b.wireBytes + PREFIX_BYTES + length > USIZE_MAX then Err(BudgetOverflow)
    else if b.wireBytes + PREFIX_BYTES + length > b.maxWireBytes then Err(WireBytesExceeded)
    else Ok(b.(frames := b.frames + 1, wireBytes := b.wireBytes + PREFIX_BYTES + length))
  }

  class WireBudget {
    const maxFrames: nat
    const maxWireBytes: nat
    var frames: nat
    var wireBytes: nat

    function Value(): Budget
      reads this
    {
      Budget(maxFrames, maxWireBytes, frames, wireBytes)
    }

    constructor (maxFrames: nat, maxWireBytes: nat)
      ensures Value() == Budget(maxFrames, maxWireBytes, 0, 0)
    {
      this.maxFrames, this.maxWireBytes := maxFrames, maxWireBytes;
      frames, wireBytes := 0, 0;
    }

    /** A refused frame leaves both counters as they were. */
    method ObservePayloadLen(length: nat) returns (r: Result<(), FrameError>)
      modifies this
      ensures r.Ok? <==> Charge(old(Value()), length).Ok?
      ensures r.Ok? ==> Value() == Charge(old(Value()), length).value
      ensures r.Err? ==> r.error == Charge(old(Value()), length).error && Value() == old(Value())
    {
      if frames + 1 > USIZE_MAX { return Err(BudgetOverflow); }
      var next := frames + 1;
      if next > maxFrames { return Err(FrameLimitExceeded); }
      if PREFIX_BYTES + length > USIZE_MAX { return Err(BudgetOverflow); }
      var frameBytes := PREFIX_BYTES + length;
      if wireBytes + frameBytes > USIZE_MAX { return Err(BudgetOverflow); }
      var total := wireBytes + frameBytes;
      if total > maxWireBytes { return Err(WireBytesExceeded); }
      frames, wireBytes := next, total;
      r := Ok(());
    }
  }

  /** A budget that has seen `k` frames within the payload limit. */
  predicate Within(b: Budget, k: nat)
  {
    b.frames == k && b.wireBytes <= k * (PREFIX_BYTES + MAX_FRAME_PAYLOAD_BYTES)
  }

  /** The limits leave room for every frame they count, whatever its allowed size. */
  predicate Roomy(b: Budget)
  {
    b.maxFrames * (PREFIX_BYTES + MAX_FRAME_PAYLOAD_BYTES) <= b.maxWireBytes <= USIZE_MAX
  }

  /** Within the frame limit a frame of allowed size is never refused. */
  lemma ChargeWithin(b: Budget, k: nat, length: nat)
    requires Roomy(b) && Within(b, k) && k < b.maxFrames && length <= MAX_FRAME_PAYLOAD_BYTES
    ensures Charge(b, length).Ok? && Within(Charge(b, length).value, k + 1)
    ensures Roomy(Charge(b, length).value) && Charge(b, length).value.maxFrames == b.maxFrames
  {
    var w := PREFIX_BYTES + MAX_FRAME_PAYLOAD_BYTES;
    assert (k + 1) * w <= b.maxFrames * w;
    assert b.frames + 1 <= b.maxFrames <= b.maxFrames * w;
  }

  /** And only a frame over the payload limit can exceed the byte limit. */
  lemma RefusedIsOversize(b: Budget, k: nat, length: nat)
    requires Roomy(b) && Within(b, k) && k < b.maxFrames && Charge(b, length).Err?
    ensures length > MAX_FRAME_PAYLOAD_BYTES && Charge(b, length).error != FrameLimitExceeded
  {
    if length <= MAX_FRAME_PAYLOAD_BYTES {
      ChargeWithin(b, k, length);
      assert false;
    }
    var w := PREFIX_BYTES + MAX_FRAME_PAYLOAD_BYTES;
    assert b.frames + 1 <= b.maxFrames <= b.maxFrames * w;
  }

  /** Charging frames one after the other. */
  function ChargeAll(b: Budget, lengths: seq<nat>): Result<Budget, FrameError>
  {
    if lengths == [] then Ok(b)
    else
      match ChargeAll(b, lengths[..|lengths| - 1])
      case Err(e) => Err(e)
      case Ok(charged) => Charge(charged, lengths[|lengths| - 1])
  }

  /** The bytes frames of these lengths take on the wire. */
  function OnWire(lengths: seq<nat>): nat
  {
    if lengths == [] then 0 else OnWire(lengths[..|lengths| - 1]) + 4 + lengths[|lengths| - 1]
  }

  /**
   From fresh counters, any frames are all charged exactly when they are within the frame limit and their
   bytes, prefixes included, within the byte limit; the counters then say how many and how much.
   */
  lemma {:induction false} BudgetCountsExactly(b: Budget, lengths: seq<nat>)
    requires b.frames == 0 && b.wireBytes == 0 && b.maxFrames <= USIZE_MAX && b.maxWireBytes <= USIZE_MAX
    ensures ChargeAll(b, lengths).Ok? <==> |lengths| <= b.maxFrames && OnWire(lengths) <= b.maxWireBytes
    ensures ChargeAll(b, lengths).Ok? ==>
              ChargeAll(b, lengths).value == b.(frames := |lengths|, wireBytes := OnWire(lengths))
  {
    if lengths == [] {
    } else {
      BudgetCountsExactly(b, lengths[..|lengths| - 1]);
    }
  }

  lemma ResponseBudgetsAreRoomy()
    ensures Roomy(RESPONSE_BUDGET) && Roomy(EXPORT_BUDGET)
  {
  }

  // ----- one frame

  const WIRE_PROTOCOL_VERSION: nat := 13

  datatype Envelope<B> = Envelope(version: nat, requestId: Uuid, sequence: U32, snapshotId: Option<Uuid>, body: B)

  /** A frame on the wire: its declared length and, when its payload parses, the envelope in it. */
  datatype Frame<B> = Frame(length: U32, envelope: Option<Envelope<B>>)

  /** What follows the last complete frame when the peer closes. */
  datatype Tail = Closed | PartialPrefix | PartialPayload(length: U32)

  datatype Wire<B> = Wire(frames: seq<Frame<B>>, tail: Tail)

  /** A byte stream as frames, given how payloads parse. */
  function Deframe<B>(s: Bytes, parse: Payload -> Option<Envelope<B>>): Wire<B>
  {
    match HeadOf(s)
    case NoBytes => Wire([], Closed)
    case ShortPrefix => Wire([], PartialPrefix)
    case ShortPayload(length) => Wire([], PartialPayload(length))
    case Whole(p, rest) =>
      var later := Deframe(rest, parse);
      Wire([Frame(|p|, parse(p))] + later.frames, later.tail)
  }

  /** Reading the first frame of a wire under a budget: the envelope and the charged budget. */
  function Take<B>(w: Wire<B>, b: Budget): (r: Result<(Envelope<B>, Budget), FrameError>)
    ensures r.Ok? ==> w.frames != []
  {
    if w.frames != [] then
      var f := w.frames[0];
      if f.length == 0 then Err(Empty)
      else
        match Charge(b, f.length)
        case Err(e) => Err(e)
        case Ok(charged) =>
          if f.length > MAX_FRAME_PAYLOAD_BYTES then Err(Oversize)
          else if f.envelope.None? then Err(InvalidJson)
          else Ok((f.envelope.value, charged))
    else if w.tail.PartialPayload? then
      if w.tail.length == 0 then Err(Empty)
      else
        match Charge(b, w.tail.length)
        case Err(e) => Err(e)
        case Ok(_) => if w.tail.length > MAX_FRAME_PAYLOAD_BYTES then Err(Oversize) else Err(UnexpectedEof)
    else Err(UnexpectedEof)
  }

  function Rest<B>(w: Wire<B>): Wire<B>
    requires w.frames != []
  {
    Wire(w.frames[1..], w.tail)
  }

  /** `expect_eof`. */
  predicate AtEof<B>(w: Wire<B>)
  {
    w.frames == [] && w.tail.Closed?
  }

  /** A connection: the bytes the peer sent before it closed, less those already read. */
  class Connection {
    var bytes: Bytes

    constructor (sent: Bytes)
      ensures bytes == sent
    {
      bytes := sent;
    }

    /** `read_exact`. */
    method ReadExact(n: nat) returns (r: Option<Bytes>)
      modifies this
      ensures n <= |old(bytes)| ==> r == Some(old(bytes)[..n]) && bytes == old(bytes)[n..]
      ensures n > |old(bytes)| ==> r.None?
    {
      if n <= |bytes| {
        r, bytes := Some(bytes[..n]), bytes[n..];
      } else {
        r, bytes := None, [];
      }
    }
  }

  /** What one `read_frame` returns at the head of a byte stream. */
  function ReadAt(s: Bytes, b: Budget): Result<Payload, FrameError>
  {
    var h := HeadOf(s);
    if h.NoBytes? || h.ShortPrefix? then Err(UnexpectedEof)
    else
      var length := if h.ShortPayload? then h.length else |h.payload|;
      if length == 0 then Err(Empty)
      else if Charge(b, length).Err? then Err(Charge(b, length).error)
      else if length > MAX_FRAME_PAYLOAD_BYTES then Err(Oversize)
      else if h.ShortPayload? then Err(UnexpectedEof)
      else Ok(h.payload)
  }

  method ReadFrame(connection: Connection, budget: WireBudget) returns (r: Result<Payload, FrameError>)
    modifies connection, budget
    ensures r == ReadAt(old(connection.bytes), old(budget.Value()))
    ensures r.Ok? ==>
      && HeadOf(old(connection.bytes)).Whole? && connection.bytes == HeadOf(old(connection.bytes)).rest
      && Charge(old(budget.Value()), |r.value|).Ok?
      && budget.Value() == Charge(old(budget.Value()), |r.value|).value
  {
    ghost var s := connection.bytes;
    var header := connection.ReadExact(PREFIX_BYTES);
    if header.None? { return Err(UnexpectedEof); }
    var length := Length(header.value);
    if length == 0 { return Err(Empty); }
    var observed := budget.ObservePayloadLen(length);
    if observed.Err? { return Err(observed.error); }
    if length > MAX_FRAME_PAYLOAD_BYTES { return Err(Oversize); }
    assert connection.bytes == s[4..];
    var payload := connection.ReadExact(length);
    if payload.None? { return Err(UnexpectedEof); }
    r := Ok(payload.value);
    assert s[4..][..length] == s[4..4 + length];
    assert s[4..][length..] == s[4 + length..];
  }

  /** Reading what was written: a sized payload within budget comes back, and any shorter stream ends too early. */
  lemma ReadWritten(p: Payload, rest: Bytes, cut: nat, b: Budget)
    requires 1 <= |p| <= MAX_FRAME_PAYLOAD_BYTES && Charge(b, |p|).Ok? && cut < PREFIX_BYTES + |p|
    ensures ReadAt(Framed(p) + rest, b) == Ok(p)
    ensures ReadAt(Framed(p)[..cut], b) == Err(UnexpectedEof)
  {
    HeadOfFramed(p, rest);
    var s := Framed(p)[..cut];
    if cut >= PREFIX_BYTES {
      assert s[..PREFIX_BYTES] == Prefix(|p|);
      LengthOfPrefix(|p|);
    }
  }

  /** An empty frame and one over the payload limit are never read, whatever follows. */
  lemma BadSizesAreRefused(p: Payload, rest: Bytes, b: Budget)
    requires p == [] || |p| > MAX_FRAME_PAYLOAD_BYTES
    ensures ReadAt(Framed(p) + rest, b)
         == Err(if p == [] then Empty else if Charge(b, |p|).Err? then Charge(b, |p|).error else Oversize)
  {
    HeadOfFramed(p, rest);
  }

  /** `write_frame`: what is put on the wire. */
  method WriteFrame(connection: Connection, payload: Bytes) returns (r: Result<(), FrameError>)
    modifies connection
    ensures r.Ok? <==> 1 <= |payload| <= MAX_FRAME_PAYLOAD_BYTES
    ensures r.Ok? && 1 <= |payload| <= MAX_FRAME_PAYLOAD_BYTES ==>
              connection.bytes == old(connection.bytes) + Framed(payload)
    ensures r.Err? ==> connection.bytes == old(connection.bytes)
    ensures r.Err? ==> r.error == if payload == [] then Empty else Oversize
  {
    if payload == [] { return Err(Empty); }
    if |payload| > MAX_FRAME_PAYLOAD_BYTES { return Err(Oversize); }
    var frame := Prefix(|payload|) + payload;
    connection.bytes := connection.bytes + frame;
    r := Ok(());
  }

  /** Reading bytes frame by frame is taking the frames of the deframed wire one after the other. */
  lemma ReadIsTake<B>(s: Bytes, parse: Payload -> Option<Envelope<B>>, b: Budget)
    ensures var w := Deframe(s, parse);
      match ReadAt(s, b)
      case Err(e) => Take(w, b) == Err(e)
      case Ok(p) =>
        && HeadOf(s).Whole? && w.frames != [] && Rest(w) == Deframe(HeadOf(s).rest, parse)
        && Charge(b, |p|).Ok?
        && Take(w, b) == if parse(p).None? then Err(InvalidJson) else Ok((parse(p).value, Charge(b, |p|).value))
  {
  }

  lemma EofIsAtEof<B>(s: Bytes, parse: Payload -> Option<Envelope<B>>)
    ensures AtEof(Deframe(s, parse)) <==> s == []
  {
  }

  lemma DeframeCons<B>(p: Payload, rest: Bytes, parse: Payload -> Option<Envelope<B>>)
    ensures var later := Deframe(rest, parse);
            Deframe(Framed(p) + rest, parse) == Wire([Frame(|p|, parse(p))] + later.frames, later.tail)
  {
    HeadOfFramed(p, rest);
  }

  /** The frames of written payloads are those payloads, and the wire ends cleanly. */
  lemma {:induction false} DeframeWritten<B>(ps: seq<Payload>, parse: Payload -> Option<Envelope<B>>)
    ensures Deframe(Flatten(ps), parse)
         == Wire(seq(|ps|, i requires 0 <= i < |ps| => Frame(|ps[i]|, parse(ps[i]))), Closed)
  {
    var frames := seq(|ps|, i requires 0 <= i < |ps| => Frame(|ps[i]|, parse(ps[i])));
    if ps == [] {
      assert frames == [];
    } else {
      var tail := ps[1..];
      DeframeWritten(tail, parse);
      DeframeCons(ps[0], Flatten(tail), parse);
      var later := seq(|tail|, i requires 0 <= i < |tail| => Frame(|tail[i]|, parse(tail[i])));
      assert frames == [frames[0]] + later;
    }
  }
}
