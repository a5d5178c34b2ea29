/**
 Frames between the daemon and the network helper: the helper's codec
 (`crates/network-helper-protocol/src/lib.rs`) and the daemon's own reader and writer over
 non-blocking descriptors (`bins/appd/src/network.rs`).
 */
module HelperFraming {
  import opened Wrappers
  import opened LengthPrefix

  const MAX_FRAME_BYTES: nat := 524_288

  datatype FrameError = TruncatedLength | TruncatedPayload | Empty | Oversized(length: nat)

  predicate Sized(p: Bytes)
  {
    1 <= |p| <= MAX_FRAME_BYTES
  }

  predicate AllSized(ps: seq<Payload>)
  {
    forall i :: 0 <= i < |ps| ==> Sized(ps[i])
  }

  /** A pipe: bytes written and not yet read. At its end the writer has closed it. */
  class Pipe {
    var bytes: Bytes

    constructor (initial: Bytes)
      ensures bytes == initial
    {
      bytes := initial;
    }

    /** `Read::read_exact`: the next `n` bytes, or nothing when fewer remain (they are consumed). */
    method ReadExact(n: nat) returns (r: Option<Bytes>)
      modifies this
      ensures n <= |old(bytes)| ==> r == Some(old(bytes)[..n]) && bytes == old(bytes)[n..]
      ensures n > |old(bytes)| ==> r.None? && bytes == []
    {
      if n <= |bytes| {
        r, bytes := Some(bytes[..n]), bytes[n..];
      } else {
        r, bytes := None, [];
      }
    }

    method WriteAll(data: Bytes)
      modifies this
      ensures bytes == old(bytes) + data
    {
      bytes := bytes + data;
    }
  }

  /** The meaning of one read at the head of a stream. */
  function Read(s: Bytes): Result<Option<Payload>, FrameError>
  {
    match HeadOf(s)
    case NoBytes => Ok(None)
    case ShortPrefix => Err(TruncatedLength)
    case ShortPayload(length) =>
      if length == 0 then Err(Empty)
      else if length > MAX_FRAME_BYTES then Err(Oversized(length))
      else Err(TruncatedPayload)
    case Whole(payload, _) =>
      if payload == [] then Err(Empty)
      else if |payload| > MAX_FRAME_BYTES then Err(Oversized(|payload|))
      else Ok(Some(payload))
  }

  method ReadFrame(pipe: Pipe) returns (r: Result<Option<Payload>, FrameError>)
    modifies pipe
    ensures r == Read(old(pipe.bytes))
    ensures r.Ok? && r.value.Some? ==> pipe.bytes == HeadOf(old(pipe.bytes)).rest
    ensures r == Ok(None) ==> pipe.bytes == []
  {
    ghost var s := pipe.bytes;
    var first := pipe.ReadExact(1);
    if first.None? { return Ok(None); }
    var rest := pipe.ReadExact(3);
    if rest.None? { return Err(TruncatedLength); }
    assert s[..4] == first.value + rest.value;
    var length := Length([first.value[0], rest.value[0], rest.value[1], rest.value[2]]);
    if length == 0 { return Err(Empty); }
    if length > MAX_FRAME_BYTES { return Err(Oversized(length)); }
    assert pipe.bytes == s[4..];
    var payload := pipe.ReadExact(length);
    if payload.None? { return Err(TruncatedPayload); }
    r := Ok(Some(payload.value));
    assert s[4..][..length] == s[4..4 + length];
    assert s[4..][length..] == s[4 + length..];
  }

  method WriteFrame(pipe: Pipe, payload: Bytes) returns (r: Result<(), FrameError>)
    modifies pipe
    ensures r.Ok? <==> Sized(payload)
    ensures r.Ok? && Sized(payload) ==> pipe.bytes == old(pipe.bytes) + Framed(payload)
    ensures r.Err? ==> pipe.bytes == old(pipe.bytes)
    ensures r.Err? ==> r.error == if payload == [] then Empty else Oversized(|payload|)
  {
    if payload == [] { return Err(Empty); }
    if |payload| > MAX_FRAME_BYTES { return Err(Oversized(|payload|)); }
    pipe.WriteAll(Prefix(|payload|));
    pipe.WriteAll(payload);
    r := Ok(());
  }

  // ----- round trip

  /** Reading a stream to its end: the payloads, then None or the error that stopped the reads. */
  datatype Transcript = Transcript(payloads: seq<Payload>, end: Option<FrameError>)

  function ReadAll(s: Bytes): Transcript
  {
    match Read(s)
    case Err(e) => Transcript([], Some(e))
    case Ok(None) => Transcript([], None)
    case Ok(Some(p)) =>
      var later := ReadAll(HeadOf(s).rest);
      Transcript([p] + later.payloads, later.end)
  }

  lemma ReadOne(p: Payload, rest: Bytes)
    requires Sized(p)
    ensures ReadAll(Framed(p) + rest) == Transcript([p] + ReadAll(rest).payloads, ReadAll(rest).end)
  {
    HeadOfFramed(p, rest);
  }

  lemma Prepend(ps: seq<Payload>, qs: seq<Payload>)
    requires ps != []
    ensures [ps[0]] + (ps[1..] + qs) == ps + qs
  {
  }

  /** Reading through sized frames gives them back and goes on with what follows. */
  lemma {:induction false} ReadThrough(ps: seq<Payload>, rest: Bytes)
    requires AllSized(ps)
    ensures ReadAll(Flatten(ps) + rest) == Transcript(ps + ReadAll(rest).payloads, ReadAll(rest).end)
  {
    if ps == [] {
      assert Flatten(ps) + rest == rest;
      assert ps + ReadAll(rest).payloads == ReadAll(rest).payloads;
    } else {
      var tail := Flatten(ps[1..]) + rest;
      assert Flatten(ps) + rest == Framed(ps[0]) + tail;
      ReadThrough(ps[1..], rest);
      ReadOne(ps[0], tail);
      Prepend(ps, ReadAll(rest).payloads);
    }
  }

  /** Writing any list of sized payloads and reading to the end yields that list and then None. */
  lemma {:induction false} RoundTrip(ps: seq<Payload>)
    requires AllSized(ps)
    ensures ReadAll(Flatten(ps)) == Transcript(ps, None)
  {
    ReadThrough(ps, []);
    assert Flatten(ps) + [] == Flatten(ps);
    assert ps + [] == ps;
  }

  /** The bytes at which the reads of `ReadAll` stop. */
  function Unread(s: Bytes): Bytes
  {
    match Read(s)
    case Ok(Some(_)) => Unread(HeadOf(s).rest)
    case _ => s
  }

  /** One frame read: the stream is that frame and what follows, and the reads go on there. */
  lemma ReadOneOff(s: Bytes)
    requires Read(s).Ok? && Read(s).value.Some?
    ensures var p, next := Read(s).value.value, HeadOf(s).rest;
      && Sized(p) && |next| < |s| && s == Framed(p) + next && Unread(s) == Unread(next)
      && ReadAll(s) == Transcript([p] + ReadAll(next).payloads, ReadAll(next).end)
  {
    WholeIsFramed(s);
  }

  lemma SplitCons(p: Payload, later: seq<Payload>, next: Bytes, unread: Bytes)
    requires next == Flatten(later) + unread
    ensures Framed(p) + next == Flatten([p] + later) + unread
  {
    FlattenCons(p, later);
    Assoc(Framed(p), Flatten(later), unread);
  }

  /** A reader never invents: what it returns was framed in the stream, in order, from the start. */
  lemma {:induction false} ReadsWereWritten(s: Bytes)
    ensures AllSized(ReadAll(s).payloads)
    ensures s == Flatten(ReadAll(s).payloads) + Unread(s)
    ensures ReadAll(Unread(s)) == Transcript([], ReadAll(s).end)
    decreases |s|
  {
    if Read(s).Err? || Read(s).value.None? {
      assert ReadAll(s).payloads == [] && Unread(s) == s;
    } else {
      ReadOneOff(s);
      var p, next := Read(s).value.value, HeadOf(s).rest;
      ReadsWereWritten(next);
      SplitCons(p, ReadAll(next).payloads, next, Unread(next));
    }
  }

  // ----- truncation

  /** How many whole frames the first `n` bytes of the written stream hold. */
  function Complete(ps: seq<Payload>, n: nat): (k: nat)
    ensures k <= |ps|
  {
    if ps == [] || n < PREFIX_BYTES + |ps[0]| then 0
    else 1 + Complete(ps[1..], n - PREFIX_BYTES - |ps[0]|)
  }

  /** The largest prefix of frames that fits in `n` bytes. */
  lemma {:induction false} CompleteIsMaximal(ps: seq<Payload>, n: nat)
    ensures var k := Complete(ps, n);
      && |Flatten(ps[..k])| <= n
      && (k < |ps| ==> n < |Flatten(ps[..k])| + PREFIX_BYTES + |ps[k]|)
  {
    if ps != [] && n >= PREFIX_BYTES + |ps[0]| {
      var k := Complete(ps, n);
      CompleteIsMaximal(ps[1..], n - PREFIX_BYTES - |ps[0]|);
      assert ps[..k][1..] == ps[1..][..k - 1];
    }
  }

  /** How a stream that is cut `extra` bytes into a frame ends. */
  function CutEnding(extra: nat): Option<FrameError>
  {
    if extra == 0 then None else if extra < PREFIX_BYTES then Some(TruncatedLength) else Some(TruncatedPayload)
  }

  lemma ReadThroughEnd(ps: seq<Payload>, rest: Bytes)
    requires AllSized(ps) && ReadAll(rest).payloads == []
    ensures ReadAll(Flatten(ps) + rest) == Transcript(ps, ReadAll(rest).end)
  {
    ReadThrough(ps, rest);
    assert ps + [] == ps;
  }

  lemma SizedSplit(ps: seq<Payload>, k: nat)
    requires AllSized(ps) && k <= |ps|
    ensures AllSized(ps[..k]) && AllSized(ps[k..])
  {
  }

  /** A cut that keeps `k` frames and ends within the next. */
  lemma CutAt(ps: seq<Payload>, k: nat, n: nat)
    requires AllSized(ps) && k <= |ps| && |Flatten(ps[..k])| <= n <= |Flatten(ps)|
    requires k < |ps| ==> n < |Flatten(ps[..k])| + PREFIX_BYTES + |ps[k]|
    ensures ReadAll(Flatten(ps)[..n]) == Transcript(ps[..k], CutEnding(n - |Flatten(ps[..k])|))
  {
    var extra := n - |Flatten(ps[..k])|;
    SizedSplit(ps, k);
    CutSplits(ps, k, n);
    CutEnds(ps[k..], extra);
    ReadThroughEnd(ps[..k], Flatten(ps[k..])[..extra]);
  }

  /**
   A stream cut after any number of bytes yields exactly the frames that fit, then None when the cut is
   at a frame boundary, TruncatedLength when one to three bytes follow it, TruncatedPayload otherwise.
   */
  lemma {:induction false} Truncation(ps: seq<Payload>, n: nat)
    requires AllSized(ps) && n <= |Flatten(ps)|
    ensures var k := Complete(ps, n);
            && |Flatten(ps[..k])| <= n
            && ReadAll(Flatten(ps)[..n]) == Transcript(ps[..k], CutEnding(n - |Flatten(ps[..k])|))
  {
    CompleteIsMaximal(ps, n);
    CutAt(ps, Complete(ps, n), n);
  }

  /** A cut past the first `k` frames keeps them and cuts what follows. */
  lemma CutSplits(ps: seq<Payload>, k: nat, n: nat)
    requires k <= |ps| && |Flatten(ps[..k])| <= n <= |Flatten(ps)|
    ensures n - |Flatten(ps[..k])| <= |Flatten(ps[k..])|
    ensures Flatten(ps)[..n] == Flatten(ps[..k]) + Flatten(ps[k..])[..n - |Flatten(ps[..k])|]
  {
    assert ps == ps[..k] + ps[k..];
    FlattenAppend(ps[..k], ps[k..]);
  }

  /** What follows a cut within the first of the frames left. */
  lemma CutEnds(ps: seq<Payload>, extra: nat)
    requires AllSized(ps) && extra <= |Flatten(ps)| && (ps != [] ==> extra < PREFIX_BYTES + |ps[0]|)
    ensures ReadAll(Flatten(ps)[..extra]) == Transcript([], CutEnding(extra))
  {
    if ps == [] {
      assert Flatten(ps)[..extra] == [];
    } else {
      CutFrame(ps[0], Flatten(ps[1..]), extra);
    }
  }

  /** A cut inside one frame. */
  lemma CutFrame(p: Payload, rest: Bytes, extra: nat)
    requires Sized(p) && extra < PREFIX_BYTES + |p|
    ensures ReadAll((Framed(p) + rest)[..extra]) == Transcript([], CutEnding(extra))
  {
    var s := (Framed(p) + rest)[..extra];
    if extra >= PREFIX_BYTES {
      assert s[..PREFIX_BYTES] == Prefix(|p|);
      LengthOfPrefix(|p|);
    }
  }

  // ----- the daemon's own reader and writer

  /** What one poll-and-transfer on a descriptor may do; `Moved(n)` transfers at most `n + 1` bytes. */
  datatype Transfer = Moved(n: nat) | Interrupted | Failed | TimedOut

  /** Every transfer moves bytes. */
  predicate Flowing(schedule: seq<Transfer>)
  {
    forall i :: 0 <= i < |schedule| ==> schedule[i].Moved?
  }

  datatype DaemonError = Eof | OversizedFrame | IoFailed | Timeout

  /** The first transfer that failed or met the deadline is the reason; a schedule that ends has met it. */
  predicate StoppedBy(schedule: seq<Transfer>, used: nat, error: DaemonError)
  {
    match error
    case IoFailed => 0 < used <= |schedule| && schedule[used - 1].Failed? && Quiet(schedule, used - 1)
    case Timeout =>
      || (used == |schedule| && Quiet(schedule, used))
      || (0 < used <= |schedule| && schedule[used - 1].TimedOut? && Quiet(schedule, used - 1))
    case _ => false
  }

  predicate Quiet(schedule: seq<Transfer>, n: nat)
    requires n <= |schedule|
  {
    forall i :: 0 <= i < n ==> schedule[i].Moved? || schedule[i].Interrupted?
  }

  /** `write_fd_all`: partial writes until done. What reaches the pipe is a prefix of `data`, all of it on success. */
  method WriteFdAll(pipe: Pipe, data: Bytes, schedule: seq<Transfer>) returns (r: Result<(), DaemonError>, used: nat)
    modifies pipe
    ensures used <= |schedule|
    ensures r.Ok? ==> pipe.bytes == old(pipe.bytes) + data
    ensures r.Err? ==> r.error in {IoFailed, Timeout}
    ensures Flowing(schedule) && |data| <= |schedule| ==> r.Ok? && used <= |data|
    ensures r.Err? ==> StoppedBy(schedule, used, r.error)
    ensures exists k :: 0 <= k <= |data| && pipe.bytes == old(pipe.bytes) + data[..k]
  {
    var sent: nat := 0;
    used := 0;
    while sent < |data|
      invariant used <= |schedule| && sent <= |data|
      invariant pipe.bytes == old(pipe.bytes) + data[..sent]
      invariant Flowing(schedule) ==> used <= sent
      invariant forall i :: 0 <= i < used ==> schedule[i].Moved? || schedule[i].Interrupted?
      decreases |schedule| - used
    {
      // A schedule that ends has met the deadline.
      if used == |schedule| { return Err(Timeout), used; }
      var step := schedule[used];
      used := used + 1;
      match step {
        case Moved(n) =>
          var written := if n + 1 <= |data| - sent then n + 1 else |data| - sent;
          assert data[..sent + written] == data[..sent] + data[sent..sent + written];
          pipe.WriteAll(data[sent..sent + written]);
          sent := sent + written;
        case Interrupted =>
        case Failed => return Err(IoFailed), used;
        case TimedOut => return Err(Timeout), used;
      }
    }
    assert data[..sent] == data;
    r := Ok(());
  }

  /** `read_fd_exact`: partial reads until `n` bytes are there; a read of nothing means end of file. */
  method ReadFdExact(pipe: Pipe, n: nat, schedule: seq<Transfer>) returns (r: Result<Bytes, DaemonError>, used: nat)
    modifies pipe
    ensures used <= |schedule|
    ensures r.Ok? ==> n <= |old(pipe.bytes)| && r.value == old(pipe.bytes)[..n] && pipe.bytes == old(pipe.bytes)[n..]
    ensures r.Err? && r.error.Eof? ==> n > |old(pipe.bytes)|
    ensures r.Err? ==> r.error != OversizedFrame
    ensures Flowing(schedule) && n <= |schedule| ==> if r.Ok? then used <= n else r.error.Eof?
    ensures r.Err? && !r.error.Eof? ==> StoppedBy(schedule, used, r.error)
  {
    ghost var s := pipe.bytes;
    var got: Bytes := [];
    used := 0;
    while |got| < n
      invariant used <= |schedule| && |got| <= n && |got| <= |s|
      invariant got == s[..|got|] && pipe.bytes == s[|got|..]
      invariant Flowing(schedule) ==> used <= |got|
      invariant forall i :: 0 <= i < used ==> schedule[i].Moved? || schedule[i].Interrupted?
      decreases |schedule| - used
    {
      if used == |schedule| { return Err(Timeout), used; }
      var step := schedule[used];
      used := used + 1;
      match step {
        case Moved(m) =>
          if pipe.bytes == [] { return Err(Eof), used; }
          var want := if m + 1 <= n - |got| then m + 1 else n - |got|;
          var read := if want <= |pipe.bytes| then want else |pipe.bytes|;
          var part := pipe.ReadExact(read);
          assert s[|got|..][..read] == s[|got|..|got| + read];
          got := got + part.value;
        case Interrupted =>
        case Failed => return Err(IoFailed), used;
        case TimedOut => return Err(Timeout), used;
      }
    }
    r := Ok(got);
  }

  /** `write_helper_frame`: on success exactly the helper codec's frame is on the pipe. */
  method WriteHelperFrame(pipe: Pipe, payload: Bytes, schedule: seq<Transfer>) returns (r: Result<(), DaemonError>)
    modifies pipe
    ensures r.Ok? ==> Sized(payload) && pipe.bytes == old(pipe.bytes) + Framed(payload)
    ensures !Sized(payload) ==> r == Err(OversizedFrame) && pipe.bytes == old(pipe.bytes)
    ensures Sized(payload) ==> r != Err(OversizedFrame) && r != Err(Eof)
    ensures Sized(payload) && Flowing(schedule) && |schedule| >= PREFIX_BYTES + |payload| ==> r.Ok?
  {
    if payload == [] || |payload| > MAX_FRAME_BYTES { return Err(OversizedFrame); }
    var used;
    r, used := WriteFdAll(pipe, Prefix(|payload|), schedule);
    if r.Err? { return; }
    r, used := WriteFdAll(pipe, payload, schedule[used..]);
  }

  /**
   `read_helper_frame`: it returns a payload only where the helper codec would return the same one and
   leaves the same rest; it reports end of file only where that codec finds None or a truncation, and
   its one size error only for the codec's Empty and Oversized. When bytes keep flowing it returns a
   payload exactly where that codec does.
   */
  method ReadHelperFrame(pipe: Pipe, schedule: seq<Transfer>) returns (r: Result<Bytes, DaemonError>)
    modifies pipe
    ensures r.Ok? ==>
      && Read(old(pipe.bytes)) == Ok(Some(r.value))
      && HeadOf(old(pipe.bytes)).Whole? && pipe.bytes == HeadOf(old(pipe.bytes)).rest
    ensures r == Err(Eof) ==>
      Read(old(pipe.bytes)) in {Ok(None), Err(TruncatedLength), Err(TruncatedPayload)}
    ensures r == Err(OversizedFrame) ==>
      Read(old(pipe.bytes)).Err? && (Read(old(pipe.bytes)).error.Empty? || Read(old(pipe.bytes)).error.Oversized?)
    ensures Flowing(schedule) && |schedule| >= PREFIX_BYTES + MAX_FRAME_BYTES ==>
      && (r.Ok? <==> Read(old(pipe.bytes)).Ok? && Read(old(pipe.bytes)).value.Some?)
      && (r == Err(Eof) <==> Read(old(pipe.bytes)) in {Ok(None), Err(TruncatedLength), Err(TruncatedPayload)})
      && (r.Err? ==> r.error.Eof? || r.error.OversizedFrame?)
  {
    ghost var s := pipe.bytes;
    var prefix, used := ReadFdExact(pipe, PREFIX_BYTES, schedule);
    if prefix.Err? { return Err(prefix.error); }
    var length := Length(prefix.value);
    if length == 0 || length > MAX_FRAME_BYTES { return Err(OversizedFrame); }
    assert pipe.bytes == s[4..];
    r, used := ReadFdExact(pipe, length, schedule[used..]);
    assert r.Ok? ==> s[4..][..length] == s[4..4 + length] && s[4..][length..] == s[4 + length..];
  }
}
