/** The streamed network snapshot: the client's reader (`crates/ipc/src/client.rs`). */
module NetworkStream {
  import opened Wrappers
  import opened Common
  import opened LengthPrefix
  import opened IpcFrame
  import opened IpcStream
  import D = NetworkDomain

  /** A snapshot without its identifier and its records. */
  datatype Header = Header(
    schema: nat,
    capturedAt: Option<int>,
    boottime: Option<nat>,
    interval: Option<nat>,
    lastSuccessAt: Option<int>,
    freshness: D.Freshness,
    retryable: bool,
    system: D.Capability,
    perApplication: D.Capability,
    coverage: D.Coverage,
    totals: Option<D.Totals>,
    aggregate: D.Rate)

  function HeaderOf(s: D.Snapshot): Header
  {
    Header(s.schema, s.capturedAt, s.boottime, s.interval, s.lastSuccessAt, s.freshness, s.retryable, s.system,
           s.perApplication, s.coverage, s.totals, s.aggregate)
  }

  function Assemble(h: Header, id: Uuid, interfaces: seq<D.InterfaceSample>,
                    applications: seq<D.ApplicationTraffic>): D.Snapshot
  {
    D.Snapshot(h.schema, id, h.capturedAt, h.boottime, h.interval, h.lastSuccessAt, h.freshness, h.retryable,
               h.system, h.perApplication, h.coverage, h.totals, h.aggregate, interfaces, applications)
  }

  datatype StartBody = StartBody(header: Header, interfaces: U32, applications: U32, records: U32, frames: U32)

  datatype EndBody = EndBody(schema: nat, interfaces: U32, applications: U32, records: U32, frames: U32)

  datatype ChunkBody =
    | InterfaceChunk(interfaces: seq<D.InterfaceSample>)
    | ApplicationChunk(applications: seq<D.ApplicationTraffic>)

  function Count(c: ChunkBody): nat
  {
    if c.InterfaceChunk? then |c.interfaces| else |c.applications|
  }

  // ----- the client's checks

  /** `validate_stream_declaration`. */
  predicate ValidDeclaration(records: nat, frames: nat)
  {
    && frames + 2 <= U32_MAX
    && frames <= MAX_RESPONSE_FRAMES - 2
    && (records == 0 <==> frames == 0)
    && (records > 0 ==> frames <= records)
  }

  /** `validate_network_start`. */
  predicate ValidStart(s: StartBody)
  {
    && ValidDeclaration(s.records, s.frames)
    && s.header.schema == D.SCHEMA_VERSION
    && s.interfaces <= D.MAX_INTERFACES
    && s.applications <= D.MAX_APPLICATIONS
    && s.records == s.interfaces + s.applications
  }

  /** A Start is accepted exactly with a small enough, consistent declaration. */
  lemma StartExactly(s: StartBody)
    ensures ValidStart(s) <==>
      && s.header.schema == 1 && s.interfaces <= 256 && s.applications <= 1024
      && s.interfaces + s.applications == s.records
      && s.frames <= 128 && s.frames <= s.records && (s.frames == 0 ==> s.records == 0)
  {
  }

  /** The variables of the read loop. */
  datatype Progress = Progress(
    dataFrames: nat,
    totalRecords: nat,
    interfaces: seq<D.InterfaceSample>,
    applications: seq<D.ApplicationTraffic>,
    applicationPhase: bool)

  const START_OF_LOOP := Progress(0, 0, [], [], false)

  function Accept(s: StartBody, p: Progress, c: ChunkBody): Result<Progress, ProtocolError>
  {
    if c.InterfaceChunk? && p.applicationPhase then Err(InvalidChunk)
    else if !(1 <= Count(c) <= MAX_CHUNK_RECORDS) then Err(InvalidChunk)
    else if p.dataFrames + 1 > U32_MAX then Err(SequenceOverflow)
    else if p.totalRecords + Count(c) > USIZE_MAX then Err(InvalidChunk)
    else if p.dataFrames + 1 > s.frames || p.totalRecords + Count(c) > s.records then Err(InvalidChunk)
    else if c.InterfaceChunk? then
      if |p.interfaces| + Count(c) > s.interfaces then Err(InvalidChunk)
      else
        Ok(Progress(p.dataFrames + 1, p.totalRecords + Count(c), p.interfaces + c.interfaces, p.applications, false))
    else
      if |p.applications| + Count(c) > s.applications then Err(InvalidChunk)
      else
        Ok(Progress(p.dataFrames + 1, p.totalRecords + Count(c), p.interfaces, p.applications + c.applications, true))
  }

  function Finish(s: StartBody, id: Uuid, p: Progress, e: EndBody): Result<D.Snapshot, ProtocolError>
  {
    var snapshot := Assemble(s.header, id, p.interfaces, p.applications);
    if e != EndBody(s.header.schema, s.interfaces, s.applications, s.records, s.frames)
       || p.dataFrames != s.frames || p.totalRecords != s.records
       || |p.interfaces| != s.interfaces || |p.applications| != s.applications
    then Err(InvalidEnd)
    else if !D.Validate(snapshot) then Err(InvalidEnd)
    else Ok(snapshot)
  }

  function Reader(): Protocol<StartBody, ChunkBody, Progress, EndBody, D.Snapshot>
  {
    Protocol(
      s => ValidStart(s), (s: StartBody) => s.frames, s => START_OF_LOOP,
      (s, p, c) => Accept(s, p, c), (s, id, p, e) => Finish(s, id, p, e))
  }

  // ----- what the chunks must be

  function Interfaces(cs: seq<ChunkBody>): seq<D.InterfaceSample>
  {
    if cs == [] then []
    else Interfaces(cs[..|cs| - 1]) + (if cs[|cs| - 1].InterfaceChunk? then cs[|cs| - 1].interfaces else [])
  }

  function Applications(cs: seq<ChunkBody>): seq<D.ApplicationTraffic>
  {
    if cs == [] then []
    else Applications(cs[..|cs| - 1]) + (if cs[|cs| - 1].ApplicationChunk? then cs[|cs| - 1].applications else [])
  }

  /** Interface chunks come before application chunks. */
  predicate InterfacesFirst(cs: seq<ChunkBody>)
  {
    forall i, j :: 0 <= i < j < |cs| && cs[j].InterfaceChunk? ==> cs[i].InterfaceChunk?
  }

  predicate Sized(cs: seq<ChunkBody>)
  {
    forall i :: 0 <= i < |cs| ==> 1 <= Count(cs[i]) <= MAX_CHUNK_RECORDS
  }

  /** A split of the snapshot's records into chunks. */
  predicate Splits(cs: seq<ChunkBody>, s: D.Snapshot)
  {
    InterfacesFirst(cs) && Sized(cs) && Interfaces(cs) == s.interfaces && Applications(cs) == s.applications
  }

  predicate Declares(start: StartBody, end: EndBody, s: D.Snapshot, frames: nat)
  {
    && start.header == HeaderOf(s)
    && start.interfaces == |s.interfaces| && start.applications == |s.applications|
    && start.records == |s.interfaces| + |s.applications|
    && start.frames == frames
    && end == EndBody(s.schema, start.interfaces, start.applications, start.records, start.frames)
  }

  /** The response a reader must accept for `s`: any split of a valid snapshot, honestly declared. */
  predicate Represents(id: Uuid, start: StartBody, cs: seq<ChunkBody>, end: EndBody, s: D.Snapshot)
  {
    && D.Validate(s) && s.id == id
    && |cs| + 2 <= MAX_RESPONSE_FRAMES
    && Declares(start, end, s, |cs|)
    && Splits(cs, s)
  }

  // ----- the loop's variables after a prefix of the chunks

  function After(cs: seq<ChunkBody>): Progress
  {
    Progress(|cs|, |Interfaces(cs)| + |Applications(cs)|, Interfaces(cs), Applications(cs),
             cs != [] && cs[|cs| - 1].ApplicationChunk?)
  }

  lemma {:induction false} RecordsCount(cs: seq<ChunkBody>)
    requires Sized(cs)
    ensures |cs| <= |Interfaces(cs)| + |Applications(cs)|
  {
    if cs == [] {
    } else {
      RecordsCount(cs[..|cs| - 1]);
      assert 1 <= Count(cs[|cs| - 1]);
    }
  }

  lemma {:induction false} PrefixesAreShorter(cs: seq<ChunkBody>, k: nat)
    requires k <= |cs|
    ensures |Interfaces(cs[..k])| <= |Interfaces(cs)| && |Applications(cs[..k])| <= |Applications(cs)|
    decreases |cs|
  {
    if k == |cs| {
      assert cs[..k] == cs;
    } else {
      PrefixesAreShorter(cs[..|cs| - 1], k);
      assert cs[..|cs| - 1][..k] == cs[..k];
    }
  }

  /** One accepted chunk extends an accepted prefix, and what acceptance needs. */
  predicate Fits(s: StartBody, cs: seq<ChunkBody>)
  {
    && InterfacesFirst(cs) && Sized(cs)
    && |cs| <= s.frames
    && |Interfaces(cs)| + |Applications(cs)| <= s.records
    && |Interfaces(cs)| <= s.interfaces && |Applications(cs)| <= s.applications
  }

  lemma FirstExtends(cs: seq<ChunkBody>, c: ChunkBody)
    ensures InterfacesFirst(cs + [c]) <==>
      InterfacesFirst(cs) && (c.InterfaceChunk? && cs != [] ==> cs[|cs| - 1].InterfaceChunk?)
  {
    var ds := cs + [c];
    assert ds[|cs|] == c;
    if InterfacesFirst(ds) {
      assert forall i :: 0 <= i < |cs| ==> cs[i] == ds[i];
      assert cs != [] ==> ds[|cs| - 1] == cs[|cs| - 1];
    }
    if InterfacesFirst(cs) && (c.InterfaceChunk? && cs != [] ==> cs[|cs| - 1].InterfaceChunk?) {
      forall i, j | 0 <= i < j < |ds| && ds[j].InterfaceChunk?
        ensures ds[i].InterfaceChunk?
      {
        assert ds[i] == cs[i];
        if j == |cs| {
          assert i < |cs| - 1 ==> cs[i].InterfaceChunk?;
        } else {
          assert ds[j] == cs[j];
        }
      }
    }
  }

  lemma SizedExtends(cs: seq<ChunkBody>, c: ChunkBody)
    ensures Sized(cs + [c]) <==> Sized(cs) && 1 <= Count(c) <= MAX_CHUNK_RECORDS
  {
    var ds := cs + [c];
    assert ds[|cs|] == c;
    assert forall i :: 0 <= i < |cs| ==> ds[i] == cs[i];
  }

  /** A chunk is accepted after a fitting prefix exactly when the longer prefix still fits. */
  lemma AcceptExactly(s: StartBody, cs: seq<ChunkBody>, c: ChunkBody)
    requires ValidStart(s) && Fits(s, cs)
    ensures Accept(s, After(cs), c).Ok? <==> Fits(s, cs + [c])
    ensures Accept(s, After(cs), c) == if Fits(s, cs + [c]) then Ok(After(cs + [c])) else Err(InvalidChunk)
  {
    var ds := cs + [c];
    assert ds[..|ds| - 1] == cs && ds[|ds| - 1] == c;
    assert Interfaces(cs) + [] == Interfaces(cs) && Applications(cs) + [] == Applications(cs);
    FirstExtends(cs, c);
    SizedExtends(cs, c);
  }

  /** All chunks are accepted in turn exactly when together they fit. */
  lemma {:induction false} FoldExactly(s: StartBody, done: seq<ChunkBody>, cs: seq<ChunkBody>)
    requires ValidStart(s) && Fits(s, done)
    ensures Fold(Reader(), s, After(done), cs).Ok? <==> Fits(s, done + cs)
    ensures Fits(s, done + cs) ==> Fold(Reader(), s, After(done), cs) == Ok(After(done + cs))
    decreases |cs|
  {
    if cs == [] {
      assert done + cs == done;
    } else {
      var c := cs[0];
      AcceptExactly(s, done, c);
      assert done + cs == done + [c] + cs[1..];
      if Fits(s, done + [c]) {
        FoldExactly(s, done + [c], cs[1..]);
      } else {
        PrefixFits(s, done + cs, |done| + 1);
        assert (done + cs)[..|done| + 1] == done + [c];
      }
    }
  }

  lemma PrefixFits(s: StartBody, cs: seq<ChunkBody>, k: nat)
    requires k <= |cs|
    ensures Fits(s, cs) ==> Fits(s, cs[..k])
  {
    PrefixesAreShorter(cs, k);
    assert forall i :: 0 <= i < k ==> cs[..k][i] == cs[i];
  }

  // ----- the reader returns exactly the represented snapshots

  lemma FoldFromStart(start: StartBody, cs: seq<ChunkBody>)
    requires ValidStart(start)
    ensures Fold(Reader(), start, START_OF_LOOP, cs).Ok? <==> Fits(start, cs)
    ensures Fits(start, cs) ==> Fold(Reader(), start, START_OF_LOOP, cs) == Ok(After(cs))
  {
    assert After([]) == START_OF_LOOP;
    assert [] + cs == cs;
    FoldExactly(start, [], cs);
  }

  /** The end checks, after the loop's variables, accept exactly the declared snapshot. */
  lemma FinishExactly(id: Uuid, start: StartBody, cs: seq<ChunkBody>, end: EndBody, s: D.Snapshot)
    ensures Finish(start, id, After(cs), end) == Ok(s) <==>
      && D.Validate(s) && s.id == id
      && Interfaces(cs) == s.interfaces && Applications(cs) == s.applications
      && Declares(start, end, s, |cs|)
  {
    var built := Assemble(start.header, id, Interfaces(cs), Applications(cs));
    assert built == s <==>
      start.header == HeaderOf(s) && s.id == id && Interfaces(cs) == s.interfaces && Applications(cs) == s.applications;
  }

  /** An honestly declared split of a valid snapshot has a valid Start and fits it. */
  lemma SplitIsDeclared(id: Uuid, start: StartBody, cs: seq<ChunkBody>, end: EndBody, s: D.Snapshot)
    requires Represents(id, start, cs, end, s)
    ensures ValidStart(start) && Fits(start, cs)
  {
    RecordsCount(cs);
  }

  /** The chunk checks and the end checks together accept exactly the represented snapshots. */
  lemma YieldsExactly(id: Uuid, start: StartBody, cs: seq<ChunkBody>, end: EndBody, s: D.Snapshot)
    ensures Yields(Reader(), id, start, cs, end, s) <==> Represents(id, start, cs, end, s)
  {
    FinishExactly(id, start, cs, end, s);
    if Represents(id, start, cs, end, s) {
      SplitIsDeclared(id, start, cs, end, s);
    }
    if ValidStart(start) {
      FoldFromStart(start, cs);
    }
  }

  /**
   For any wire, the reader returns `s` only when the frames are Start, chunks, End with consecutive
   sequence numbers and one identity, followed by end of file, and the chunks are a split of the valid
   snapshot `s`, all interface chunks before all application chunks, with the declared counts.
   */
  lemma ReaderSound(w: Wire<Body<StartBody, ChunkBody, EndBody>>, requestId: Uuid, s: D.Snapshot)
    returns (start: StartBody, cs: seq<ChunkBody>, end: EndBody)
    requires Read(Reader(), w, requestId, RESPONSE_BUDGET).result == Ok(s)
    ensures Carries(w, requestId, s.id, start, cs, end) && Represents(s.id, start, cs, end, s)
  {
    var id;
    id, start, cs, end := ReadIsLegal(Reader(), w, requestId, RESPONSE_BUDGET);
    YieldsExactly(id, start, cs, end, s);
  }

  /** And it returns `s` for every such wire. */
  lemma ReaderComplete(w: Wire<Body<StartBody, ChunkBody, EndBody>>, requestId: Uuid, start: StartBody,
                       cs: seq<ChunkBody>, end: EndBody, s: D.Snapshot)
    requires Carries(w, requestId, s.id, start, cs, end) && Represents(s.id, start, cs, end, s)
    ensures Read(Reader(), w, requestId, RESPONSE_BUDGET).result == Ok(s)
  {
    YieldsExactly(s.id, start, cs, end, s);
    ResponseBudgetsAreRoomy();
    ReadAccepts(Reader(), w, requestId, RESPONSE_BUDGET,
                s.id, start, cs, end, s);
  }

  /** So the errors of this reader mean what `IpcStream.ReadErrorsExplained` says. */
  lemma ReaderIsPlain()
    ensures Plain(Reader())
  {
  }

  /** Accepted chunks never outnumber the declaration, so the frame limit never refuses this reader. */
  lemma ReaderBounded()
    ensures Bounded(Reader(), MAX_RESPONSE_FRAMES)
  {
    forall start: StartBody, cs: seq<ChunkBody> |
        Reader().validStart(start) && Fold(Reader(), start, Reader().initial(start), cs).Ok?
      ensures |cs| <= Reader().declared(start)
    {
      FoldFromStart(start, cs);
    }
  }

    /** `request_network_snapshot`, once connected: what is read is decided by the frames in the bytes received. */
  method RequestNetworkSnapshot(connection: Connection, requestId: Uuid,
                                parse: Payload -> Option<Envelope<Body<StartBody, ChunkBody, EndBody>>>)
    returns (r: Result<D.Snapshot, ClientError>)
    modifies connection
    ensures r == Read(Reader(), Deframe(old(connection.bytes), parse), requestId, RESPONSE_BUDGET).result
    ensures r != Err(Framing(FrameLimitExceeded))
    ensures r == Err(Framing(WireBytesExceeded)) ==>
      var w := Deframe(old(connection.bytes), parse);
      ReachesOversize(w, Read(Reader(), w, requestId, RESPONSE_BUDGET).taken)
  {
    var budget := new WireBudget(MAX_RESPONSE_FRAMES, MAX_RESPONSE_WIRE_BYTES);
    ReaderBounded();
    ResponseBudgetsAreRoomy();
    ReadWithinLimits(Reader(), Deframe(connection.bytes, parse), requestId, RESPONSE_BUDGET);
    r := ReadStream(Reader(), connection, requestId, budget, parse);
  }
}
