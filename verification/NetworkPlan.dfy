/** How the server cuts a network snapshot into frames (`crates/ipc/src/server.rs`). */
module NetworkPlan {
  import opened Wrappers
  import opened Common
  import opened LengthPrefix
  import opened IpcFrame
  import opened IpcStream
  import opened IpcPlan
  import opened NetworkStream
  import D = NetworkDomain

  type NetworkBody = Body<StartBody, ChunkBody, EndBody>

  /** The size of a message as JSON. */
  type Sizing = Envelope<NetworkBody> -> nat

  /** Not empty, at most 32 records, and within the payload limit at its sequence number. */
  predicate PartFits<T>(x: Context<NetworkBody>, part: seq<T>, sequence: nat, body: seq<T> -> ChunkBody)
  {
    1 <= |part| <= MAX_CHUNK_RECORDS && FitsFrame(x, sequence, Chunk(body(part)))
  }

  predicate PartsFit<T>(x: Context<NetworkBody>, parts: seq<seq<T>>, first: nat, body: seq<T> -> ChunkBody)
  {
    forall i :: 0 <= i < |parts| ==> PartFits(x, parts[i], first + i, body)
  }

  /** Every run of at most 32 records fits a frame at every sequence number in use. */
  predicate RunsFit<T>(x: Context<NetworkBody>, records: seq<T>, body: seq<T> -> ChunkBody)
  {
    forall lo: nat, hi: nat, sequence: nat ::
      lo < hi <= |records| && hi <= lo + MAX_CHUNK_RECORDS && sequence <= MAX_RESPONSE_FRAMES ==>
        FitsFrame(x, sequence, Chunk(body(records[lo..hi])))
  }

  /** Every non-empty prefix of the run of `count` records from `offset` fits. */
  predicate PrefixesFit<T>(x: Context<NetworkBody>, records: seq<T>, offset: nat, count: nat, sequence: nat,
                           body: seq<T> -> ChunkBody)
    requires offset + count <= |records|
  {
    forall end :: offset < end <= offset + count ==> FitsFrame(x, sequence, Chunk(body(records[offset..end])))
  }

  /** The longest run from `offset` every prefix of which fits, up to 32 records; 0 when none does. */
  method Select<T>(x: Context<NetworkBody>, records: seq<T>, offset: nat, sequence: nat, body: seq<T> -> ChunkBody)
    returns (selected: nat)
    requires offset < |records| && sequence <= U32_MAX
    ensures offset + selected <= |records| && selected <= MAX_CHUNK_RECORDS
    ensures selected > 0 ==> PartFits(x, records[offset..offset + selected], sequence, body)
    ensures PrefixesFit(x, records, offset, selected, sequence, body)
    ensures selected < MAX_CHUNK_RECORDS && offset + selected < |records| ==>
      !FitsFrame(x, sequence, Chunk(body(records[offset..offset + selected + 1])))
  {
    var left := |records| - offset;
    var limit := if left <= MAX_CHUNK_RECORDS then left else MAX_CHUNK_RECORDS;
    selected := 0;
    for count := 1 to limit + 1
      invariant selected == count - 1
      invariant selected > 0 ==> PartFits(x, records[offset..offset + selected], sequence, body)
      invariant PrefixesFit(x, records, offset, selected, sequence, body)
    {
      if x.size(At(x, sequence, Chunk(body(records[offset..offset + count])))) > MAX_FRAME_PAYLOAD_BYTES { return; }
      selected := count;
    }
  }

  /**
   `encode_record_chunks`, up to the encoding itself: the parts are the records in order, each a frame
   that fits. When every run fits it succeeds with full parts, the last excepted.
   */
  method Cut<T>(x: Context<NetworkBody>, records: seq<T>, first: nat, body: seq<T> -> ChunkBody)
    returns (r: Option<seq<seq<T>>>)
    requires 1 <= first <= MAX_RESPONSE_FRAMES - 1
    ensures r.Some? ==>
      Flat(r.value) == records && first + |r.value| + 1 <= MAX_RESPONSE_FRAMES && PartsFit(x, r.value, first, body)
    ensures RunsFit(x, records, body) && |records| <= (MAX_RESPONSE_FRAMES - 1 - first) * MAX_CHUNK_RECORDS ==>
      r.Some? && |r.value| * MAX_CHUNK_RECORDS < |records| + MAX_CHUNK_RECORDS
  {
    var parts: seq<seq<T>> := [];
    var offset := 0;
    while offset < |records|
      invariant 0 <= offset <= |records|
      invariant Flat(parts) == records[..offset]
      invariant first + |parts| + 1 <= MAX_RESPONSE_FRAMES
      invariant PartsFit(x, parts, first, body)
      invariant RunsFit(x, records, body) ==>
        if offset < |records| then offset == |parts| * MAX_CHUNK_RECORDS
        else |parts| * MAX_CHUNK_RECORDS < |records| + MAX_CHUNK_RECORDS
      decreases |records| - offset
    {
      var selected := Select(x, records, offset, first + |parts|, body);
      assert RunsFit(x, records, body) ==> selected == MAX_CHUNK_RECORDS || offset + selected == |records|;
      if selected == 0 { return None; }
      var part := records[offset..offset + selected];
      assert records[..offset + selected] == records[..offset] + part;
      assert (parts + [part])[..|parts|] == parts;
      parts := parts + [part];
      offset := offset + selected;
      if first + |parts| + 1 > MAX_RESPONSE_FRAMES { return None; }
    }
    assert records[..offset] == records;
    r := Some(parts);
  }

  // ----- the whole plan

  function InterfaceChunks(parts: seq<seq<D.InterfaceSample>>): seq<ChunkBody>
  {
    seq(|parts|, i requires 0 <= i < |parts| => InterfaceChunk(parts[i]))
  }

  function ApplicationChunks(parts: seq<seq<D.ApplicationTraffic>>): seq<ChunkBody>
  {
    seq(|parts|, i requires 0 <= i < |parts| => ApplicationChunk(parts[i]))
  }

  function StartFor(s: D.Snapshot, frames: nat): StartBody
    requires D.Validate(s) && frames <= U32_MAX
  {
    StartBody(HeaderOf(s), |s.interfaces|, |s.applications|, |s.interfaces| + |s.applications|, frames)
  }

  function EndFor(s: D.Snapshot, frames: nat): EndBody
    requires D.Validate(s) && frames <= U32_MAX
  {
    EndBody(s.schema, |s.interfaces|, |s.applications|, |s.interfaces| + |s.applications|, frames)
  }

  function BodiesFor(s: D.Snapshot, cs: seq<ChunkBody>): seq<NetworkBody>
    requires D.Validate(s) && |cs| <= U32_MAX
  {
    Bodies(StartFor(s, |cs|), cs, EndFor(s, |cs|))
  }

  lemma {:induction false} ChunksHoldParts(ifs: seq<seq<D.InterfaceSample>>, aps: seq<seq<D.ApplicationTraffic>>)
    ensures Interfaces(InterfaceChunks(ifs) + ApplicationChunks(aps)) == Flat(ifs)
    ensures Applications(InterfaceChunks(ifs) + ApplicationChunks(aps)) == Flat(aps)
    decreases |ifs| + |aps|
  {
    var cs := InterfaceChunks(ifs) + ApplicationChunks(aps);
    if aps != [] {
      var init := aps[..|aps| - 1];
      ChunksHoldParts(ifs, init);
      assert cs[..|cs| - 1] == InterfaceChunks(ifs) + ApplicationChunks(init);
    } else if ifs != [] {
      var init := ifs[..|ifs| - 1];
      ChunksHoldParts(init, aps);
      assert cs[..|cs| - 1] == InterfaceChunks(init) + ApplicationChunks(aps);
    }
  }

  /** Every message of a response for `s` fits its frame. */
  ghost predicate AllFit(x: Context<NetworkBody>, s: D.Snapshot)
  {
    && RunsFit(x, s.interfaces, cs => InterfaceChunk(cs))
    && RunsFit(x, s.applications, cs => ApplicationChunk(cs))
    && (forall e: Envelope<NetworkBody> {:trigger x.size(e)} :: x.size(e) > 0)
    && (D.Validate(s) ==>
          forall frames: nat | frames <= MAX_RESPONSE_FRAMES ::
            FitsFrame(x, 0, Start(StartFor(s, frames))) && FitsFrame(x, frames + 1, End(EndFor(s, frames))))
  }

  /**
   `NetworkSnapshotPlan::build`. Whatever it produces carries the snapshot, and the reader gives exactly
   that snapshot back. It fails on a nil identifier and on an invalid snapshot, and never on a valid one
   whose messages fit their frames.
   */
  method BuildPlan(requestId: Uuid, s: D.Snapshot, size: Sizing)
    returns (r: Option<Wire<NetworkBody>>)
    ensures r.Some? ==>
      D.Validate(s) && s.id != 0 && IpcStream.Read(Reader(), r.value, requestId, RESPONSE_BUDGET).result == Ok(s)
    ensures D.Validate(s) && s.id != 0 && AllFit(Context(requestId, s.id, size), s) ==> r.Some?
  {
    if s.id == 0 || !D.Validate(s) { return None; }
    var x := Context(requestId, s.id, size);
    var ifs := Cut(x, s.interfaces, 1, cs => InterfaceChunk(cs));
    if ifs.None? { return None; }
    var aps := Cut(x, s.applications, 1 + |ifs.value|, cs => ApplicationChunk(cs));
    if aps.None? { return None; }
    var cs := InterfaceChunks(ifs.value) + ApplicationChunks(aps.value);
    PartsSplit(x, s, ifs.value, aps.value);
    if AllFit(x, s) { PartsBodiesFit(x, s, ifs.value, aps.value); }
    ResponseBudgetsAreRoomy();
    r := Encode(x, BodiesFor(s, cs), RESPONSE_BUDGET);
    if r.Some? { PlanIsRead(x, r.value, s, cs); }
  }

  /** The parts the two cuts return. */
  predicate CutsOf(x: Context<NetworkBody>, s: D.Snapshot, ifs: seq<seq<D.InterfaceSample>>,
                   aps: seq<seq<D.ApplicationTraffic>>)
  {
    && Flat(ifs) == s.interfaces && Flat(aps) == s.applications
    && |ifs| + |aps| + 2 <= MAX_RESPONSE_FRAMES
    && PartsFit(x, ifs, 1, cs => InterfaceChunk(cs)) && PartsFit(x, aps, 1 + |ifs|, cs => ApplicationChunk(cs))
  }

  predicate ShortParts<T>(parts: seq<seq<T>>)
  {
    forall i :: 0 <= i < |parts| ==> 1 <= |parts[i]| <= MAX_CHUNK_RECORDS
  }

  lemma PartsAreChunks(ifs: seq<seq<D.InterfaceSample>>, aps: seq<seq<D.ApplicationTraffic>>)
    requires ShortParts(ifs) && ShortParts(aps)
    ensures Sized(InterfaceChunks(ifs) + ApplicationChunks(aps))
    ensures InterfacesFirst(InterfaceChunks(ifs) + ApplicationChunks(aps))
  {
    var cs := InterfaceChunks(ifs) + ApplicationChunks(aps);
    forall i | 0 <= i < |cs|
      ensures 1 <= Count(cs[i]) <= MAX_CHUNK_RECORDS && (cs[i].InterfaceChunk? <==> i < |ifs|)
    {
      if i < |ifs| {
        assert cs[i] == InterfaceChunk(ifs[i]);
      } else {
        assert cs[i] == ApplicationChunk(aps[i - |ifs|]);
      }
    }
  }

  lemma PartsAreShort<T>(x: Context<NetworkBody>, parts: seq<seq<T>>, first: nat, body: seq<T> -> ChunkBody)
    requires PartsFit(x, parts, first, body)
    ensures ShortParts(parts)
  {
    forall i | 0 <= i < |parts|
      ensures 1 <= |parts[i]| <= MAX_CHUNK_RECORDS
    {
      assert PartFits(x, parts[i], first + i, body);
    }
  }

  lemma PartsSplit(x: Context<NetworkBody>, s: D.Snapshot, ifs: seq<seq<D.InterfaceSample>>,
                   aps: seq<seq<D.ApplicationTraffic>>)
    requires CutsOf(x, s, ifs, aps)
    ensures Splits(InterfaceChunks(ifs) + ApplicationChunks(aps), s)
  {
    ChunksHoldParts(ifs, aps);
    PartsAreShort(x, ifs, 1, cs => InterfaceChunk(cs));
    PartsAreShort(x, aps, 1 + |ifs|, cs => ApplicationChunk(cs));
    PartsAreChunks(ifs, aps);
  }

  lemma PartsBodiesFit(x: Context<NetworkBody>, s: D.Snapshot, ifs: seq<seq<D.InterfaceSample>>,
                       aps: seq<seq<D.ApplicationTraffic>>)
    requires D.Validate(s) && CutsOf(x, s, ifs, aps) && AllFit(x, s)
    ensures BodiesFit(x, BodiesFor(s, InterfaceChunks(ifs) + ApplicationChunks(aps)))
  {
    var cs := InterfaceChunks(ifs) + ApplicationChunks(aps);
    var bodies := BodiesFor(s, cs);
    forall i | 0 <= i < |bodies|
      ensures FitsFrame(x, i, bodies[i])
    {
      if 1 <= i <= |ifs| {
        assert PartFits(x, ifs[i - 1], 1 + (i - 1), cs => InterfaceChunk(cs));
      } else if |ifs| < i <= |cs| {
        assert PartFits(x, aps[i - 1 - |ifs|], 1 + |ifs| + (i - 1 - |ifs|), cs => ApplicationChunk(cs));
      }
    }
  }

  /** A plan for any split of a valid snapshot is read back as that snapshot. */
  lemma PlanIsRead(x: Context<NetworkBody>, w: Wire<NetworkBody>, s: D.Snapshot, cs: seq<ChunkBody>)
    requires D.Validate(s) && s.id == x.id != 0
    requires Splits(cs, s) && |cs| + 2 <= MAX_RESPONSE_FRAMES
    requires Encodes(x, w, BodiesFor(s, cs))
    ensures IpcStream.Read(Reader(), w, x.requestId, RESPONSE_BUDGET).result == Ok(s)
  {
    EncodedCarries(x, w, StartFor(s, |cs|), cs, EndFor(s, |cs|));
    ReaderComplete(w, x.requestId, StartFor(s, |cs|), cs, EndFor(s, |cs|), s);
  }
}
