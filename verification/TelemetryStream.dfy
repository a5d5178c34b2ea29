/** The streamed telemetry snapshot: the client's reader (`crates/ipc/src/client.rs`). */
module TelemetryStream {
  import opened Wrappers
  import opened Common
  import opened LengthPrefix
  import opened IpcFrame
  import opened IpcStream

  const SCHEMA_VERSION: nat := 4
  const MAX_APPLICATION_RECORDS: nat := 1024
  const MAX_TOTAL_RECORDS: nat := 4096

  /** `facts` stands for the measured values, which the reader only carries. */
  datatype Sample = Sample(key: string, facts: nat)

  datatype IssueCount = IssueCount(code: string, count: nat)

  /** The fields that Start declares and End repeats. */
  datatype State = State(
    schema: nat, freshness: nat, status: nat, reason: string, retryable: bool, scope: string,
    lastSuccessAt: Option<int>)

  /** The fields that only Start carries. */
  datatype Facts = Facts(capturedAt: Option<int>, interval: Option<nat>, cpus: Option<nat>, systemFd: nat)

  datatype Snapshot = Snapshot(
    id: Uuid, state: State, facts: Facts, denied: seq<IssueCount>, issues: seq<IssueCount>, applications: seq<Sample>)

  datatype StartBody = StartBody(state: State, facts: Facts, applications: U32, records: U32, frames: U32)

  datatype EndBody = EndBody(
    state: State, applications: U32, records: U32, frames: U32, denied: seq<IssueCount>, issues: seq<IssueCount>)

  /** `validate_start`. */
  predicate ValidStart(s: StartBody)
  {
    && s.frames + 2 <= U32_MAX
    && s.state.schema == SCHEMA_VERSION
    && s.applications <= MAX_APPLICATION_RECORDS
    && s.records <= MAX_TOTAL_RECORDS
    && s.records == s.applications
    && s.frames <= MAX_RESPONSE_FRAMES - 2
    && (s.records == 0 <==> s.frames == 0)
    && (s.records > 0 ==> s.frames <= s.records)
  }

  /** A Start is accepted exactly with a small enough, consistent declaration. */
  lemma StartExactly(s: StartBody)
    ensures ValidStart(s) <==>
      && s.state.schema == 4 && s.applications <= 1024 && s.applications == s.records
      && s.frames <= 128 && s.frames <= s.records && (s.frames == 0 ==> s.records == 0)
  {
  }

  /** The variables of the read loop. */
  datatype Progress = Progress(dataFrames: nat, totalRecords: nat, applications: seq<Sample>)

  const START_OF_LOOP := Progress(0, 0, [])

  function Accept(s: StartBody, p: Progress, c: seq<Sample>): Result<Progress, ProtocolError>
  {
    if !(1 <= |c| <= MAX_CHUNK_RECORDS) then Err(InvalidChunk)
    else if p.dataFrames + 1 > U32_MAX then Err(SequenceOverflow)
    else if p.dataFrames + 1 > s.frames then Err(InvalidChunk)
    else if p.totalRecords + |c| > USIZE_MAX || |p.applications| + |c| > USIZE_MAX then Err(InvalidChunk)
    else if p.totalRecords + |c| > s.records || p.totalRecords + |c| > MAX_TOTAL_RECORDS
         || |p.applications| + |c| > s.applications then Err(InvalidChunk)
    else Ok(Progress(p.dataFrames + 1, p.totalRecords + |c|, p.applications + c))
  }

  /** `validate_end` and the assembled snapshot. */
  function Finish(s: StartBody, id: Uuid, p: Progress, e: EndBody): Result<Snapshot, ProtocolError>
  {
    if e.state != s.state || e.applications != s.applications || e.records != s.records || e.frames != s.frames
       || p.dataFrames != s.frames || p.totalRecords != s.records || |p.applications| != s.applications
    then Err(InvalidEnd)
    else Ok(Snapshot(id, s.state, s.facts, e.denied, e.issues, p.applications))
  }

  function Reader(): Protocol<StartBody, seq<Sample>, Progress, EndBody, Snapshot>
  {
    Protocol(
      s => ValidStart(s), (s: StartBody) => s.frames, s => START_OF_LOOP,
      (s, p, c) => Accept(s, p, c), (s, id, p, e) => Finish(s, id, p, e))
  }

  predicate Sized(cs: seq<seq<Sample>>)
  {
    forall i :: 0 <= i < |cs| ==> 1 <= |cs[i]| <= MAX_CHUNK_RECORDS
  }

  /** Any split of a snapshot of at most 1024 records into chunks of 1 to 32, honestly declared. */
  predicate Represents(id: Uuid, start: StartBody, cs: seq<seq<Sample>>, end: EndBody, s: Snapshot)
  {
    && s.id == id && s.state.schema == SCHEMA_VERSION && |s.applications| <= MAX_APPLICATION_RECORDS
    && |cs| + 2 <= MAX_RESPONSE_FRAMES
    && Sized(cs) && Flat(cs) == s.applications
    && start == StartBody(s.state, s.facts, |s.applications|, |s.applications|, |cs|)
    && end == EndBody(s.state, |s.applications|, |s.applications|, |cs|, s.denied, s.issues)
  }

  // ----- the loop's variables after a prefix of the chunks

  function After(cs: seq<seq<Sample>>): Progress
  {
    Progress(|cs|, |Flat(cs)|, Flat(cs))
  }

  predicate Fits(s: StartBody, cs: seq<seq<Sample>>)
  {
    Sized(cs) && |cs| <= s.frames && |Flat(cs)| <= s.records
  }

  lemma {:induction false} RecordsCount(cs: seq<seq<Sample>>)
    requires Sized(cs)
    ensures |cs| <= |Flat(cs)|
  {
    if cs == [] {
    } else {
      RecordsCount(cs[..|cs| - 1]);
      assert 1 <= |cs[|cs| - 1]|;
    }
  }

  lemma {:induction false} PrefixFits(s: StartBody, cs: seq<seq<Sample>>, k: nat)
    requires k <= |cs|
    ensures Fits(s, cs) ==> Fits(s, cs[..k])
    decreases |cs|
  {
    if k == |cs| {
      assert cs[..k] == cs;
    } else {
      PrefixFits(s, cs[..|cs| - 1], k);
      assert cs[..|cs| - 1][..k] == cs[..k];
    }
  }

  lemma AcceptExactly(s: StartBody, cs: seq<seq<Sample>>, c: seq<Sample>)
    requires ValidStart(s) && Fits(s, cs)
    ensures Accept(s, After(cs), c).Ok? <==> Fits(s, cs + [c])
    ensures Accept(s, After(cs), c) == if Fits(s, cs + [c]) then Ok(After(cs + [c])) else Err(InvalidChunk)
  {
    var ds := cs + [c];
    assert ds[..|ds| - 1] == cs && ds[|ds| - 1] == c;
    assert forall i :: 0 <= i < |cs| ==> ds[i] == cs[i];
  }

  lemma {:induction false} FoldExactly(s: StartBody, done: seq<seq<Sample>>, cs: seq<seq<Sample>>)
    requires ValidStart(s) && Fits(s, done)
    ensures Fold(Reader(), s, After(done), cs).Ok? <==> Fits(s, done + cs)
    ensures Fits(s, done + cs) ==> Fold(Reader(), s, After(done), cs) == Ok(After(done + cs))
    decreases |cs|
  {
    if cs == [] {
      assert done + cs == done;
    } else {
      var c := cs[0];
      AcceptExactly(s, done, c);
      assert done + cs == done + [c] + cs[1..];
      if Fits(s, done + [c]) {
        FoldExactly(s, done + [c], cs[1..]);
      } else {
        PrefixFits(s, done + cs, |done| + 1);
        assert (done + cs)[..|done| + 1] == done + [c];
      }
    }
  }

  lemma FoldFromStart(start: StartBody, cs: seq<seq<Sample>>)
    requires ValidStart(start)
    ensures Fold(Reader(), start, START_OF_LOOP, cs).Ok? <==> Fits(start, cs)
    ensures Fits(start, cs) ==> Fold(Reader(), start, START_OF_LOOP, cs) == Ok(After(cs))
  {
    assert After([]) == START_OF_LOOP;
    assert [] + cs == cs;
    FoldExactly(start, [], cs);
  }

  lemma SplitIsDeclared(id: Uuid, start: StartBody, cs: seq<seq<Sample>>, end: EndBody, s: Snapshot)
    requires Represents(id, start, cs, end, s)
    ensures ValidStart(start) && Fits(start, cs)
  {
    RecordsCount(cs);
  }

  /** The chunk checks and the end checks together accept exactly the represented snapshots. */
  lemma YieldsExactly(id: Uuid, start: StartBody, cs: seq<seq<Sample>>, end: EndBody, s: Snapshot)
    ensures Yields(Reader(), id, start, cs, end, s) <==> Represents(id, start, cs, end, s)
  {
    if Represents(id, start, cs, end, s) {
      SplitIsDeclared(id, start, cs, end, s);
    }
    if ValidStart(start) {
      FoldFromStart(start, cs);
    }
  }

  /** A snapshot is returned only for a response that carries a split of it, and then is the concatenation. */
  lemma ReaderSound(w: Wire<Body<StartBody, seq<Sample>, EndBody>>, requestId: Uuid, s: Snapshot)
    returns (start: StartBody, cs: seq<seq<Sample>>, end: EndBody)
    requires Read(Reader(), w, requestId, RESPONSE_BUDGET).result == Ok(s)
    ensures Carries(w, requestId, s.id, start, cs, end) && Represents(s.id, start, cs, end, s)
  {
    var id;
    id, start, cs, end := ReadIsLegal(Reader(), w, requestId, RESPONSE_BUDGET);
    YieldsExactly(id, start, cs, end, s);
  }

  /** And for every such response it is returned. */
  lemma ReaderComplete(w: Wire<Body<StartBody, seq<Sample>, EndBody>>, requestId: Uuid, start: StartBody,
                       cs: seq<seq<Sample>>, end: EndBody, s: Snapshot)
    requires Carries(w, requestId, s.id, start, cs, end) && Represents(s.id, start, cs, end, s)
    ensures Read(Reader(), w, requestId, RESPONSE_BUDGET).result == Ok(s)
  {
    YieldsExactly(s.id, start, cs, end, s);
    ResponseBudgetsAreRoomy();
    ReadAccepts(Reader(), w, requestId, RESPONSE_BUDGET, s.id, start, cs, end, s);
  }

  /** So the errors of this reader mean what `IpcStream.ReadErrorsExplained` says. */
  lemma ReaderIsPlain()
    ensures Plain(Reader())
  {
  }

  lemma ReaderBounded()
    ensures Bounded(Reader(), MAX_RESPONSE_FRAMES)
  {
    forall start: StartBody, cs: seq<seq<Sample>> |
        Reader().validStart(start) && Fold(Reader(), start, Reader().initial(start), cs).Ok?
      ensures |cs| <= Reader().declared(start)
    {
      FoldFromStart(start, cs);
    }
  }

  /** `request_telemetry_snapshot`, once connected. */
  method RequestTelemetrySnapshot(connection: Connection, requestId: Uuid,
                                  parse: Payload -> Option<Envelope<Body<StartBody, seq<Sample>, EndBody>>>)
    returns (r: Result<Snapshot, ClientError>)
    modifies connection
    ensures r == Read(Reader(), Deframe(old(connection.bytes), parse), requestId, RESPONSE_BUDGET).result
    ensures r != Err(Framing(FrameLimitExceeded))
    ensures r == Err(Framing(WireBytesExceeded)) ==>
      var w := Deframe(old(connection.bytes), parse);
      ReachesOversize(w, Read(Reader(), w, requestId, RESPONSE_BUDGET).taken)
  {
    var budget := new WireBudget(MAX_RESPONSE_FRAMES, MAX_RESPONSE_WIRE_BYTES);
    ReaderBounded();
    ResponseBudgetsAreRoomy();
    ReadWithinLimits(Reader(), Deframe(connection.bytes, parse), requestId, RESPONSE_BUDGET);
    r := ReadStream(Reader(), connection, requestId, budget, parse);
  }
}
