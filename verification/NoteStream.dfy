/**
 Streamed note content: the client's reader (`crates/ipc/src/client.rs`) and the server's chunking
 (`crates/ipc/src/server.rs`), under the limits of `crates/domain/src/notes.rs`.
 */
module NoteStream {
  import opened Wrappers
  import opened Common
  import opened LengthPrefix
  import opened IpcFrame
  import opened IpcStream
  import Base64

  const SCHEMA_VERSION: nat := 1
  const CHUNK_BYTES: nat := 45_056
  const MAX_BASE64_BYTES: nat := 60_076
  const MAX_BODY_BYTES: nat := 4 * 1024 * 1024
  const MAX_EXPORT_BYTES: nat := CHUNK_BYTES * 598

  /** The digest, in hexadecimal, and the test for UTF-8; a string of content is its bytes. */
  datatype World = World(sha256: Bytes -> string, utf8: Bytes -> bool)

  /** `metaValid` stands for the checks on identifier, title, tags, date and revision. */
  datatype Summary = Summary(id: string, bodyBytes: nat, bodySha256: string, metaValid: bool, facts: nat)

  datatype Kind = DocumentKind | ExportKind(format: nat)

  datatype Command = Get(id: string) | Export(format: nat) | OtherCommand

  datatype StartBody = StartBody(
    schema: nat, kind: Kind, note: Option<Summary>, totalBytes: U32, sha256: string, frames: U32)

  datatype ChunkBody = ChunkBody(offset: nat, rawBytes: nat, base64: string)

  datatype EndBody = EndBody(schema: nat, kind: Kind, totalBytes: U32, sha256: string, frames: U32)

  datatype Output =
    | DocumentOutput(summary: Summary, body: Bytes)
    | ExportOutput(format: nat, contentBytes: nat, sha256: string, content: Bytes)

  predicate ValidSha256(s: string)
  {
    |s| == 64 && forall i :: 0 <= i < |s| ==> '0' <= s[i] <= '9' || 'a' <= s[i] <= 'f'
  }

  /** `NoteSummary::validate`. */
  predicate ValidSummary(n: Summary)
  {
    n.metaValid && n.bodyBytes <= MAX_BODY_BYTES && ValidSha256(n.bodySha256)
  }

  function CeilDiv(n: nat): nat
  {
    if n == 0 then 0 else (n + CHUNK_BYTES - 1) / CHUNK_BYTES
  }

  // ----- the client's checks

  /** `validate_notes_content_start`. */
  predicate ValidStart(s: StartBody, command: Command)
  {
    && s.schema == SCHEMA_VERSION
    && (match s.kind
        case DocumentKind =>
          && command.Get? && s.totalBytes <= MAX_BODY_BYTES
          && s.note.Some? && ValidSummary(s.note.value)
          && s.note.value.bodyBytes == s.totalBytes && s.note.value.bodySha256 == s.sha256
        case ExportKind(format) =>
          command.Export? && command.format == format && s.totalBytes <= MAX_EXPORT_BYTES && s.note.None?)
    && ValidSha256(s.sha256)
    && s.frames == CeilDiv(s.totalBytes)
  }

  /** A Start is accepted exactly when it declares the kind asked for, within its limit and with its frame count. */
  lemma StartExactly(s: StartBody, command: Command)
    ensures ValidStart(s, command) <==>
      && s.schema == 1 && ValidSha256(s.sha256)
      && s.frames * 45_056 < s.totalBytes + 45_056 && s.totalBytes <= s.frames * 45_056
      && (if s.kind == DocumentKind then
            && command.Get? && s.totalBytes <= 4_194_304 && s.note.Some?
            && ValidSummary(s.note.value) && s.note.value.bodyBytes == s.totalBytes
            && s.note.value.bodySha256 == s.sha256
          else command == Export(s.kind.format) && s.totalBytes <= 26_943_488 && s.note == None)
  {
  }

  /** The variables of the read loop. */
  datatype Progress = Progress(dataFrames: nat, bytes: Bytes)

  const START_OF_LOOP := Progress(0, [])

  function Accept(s: StartBody, p: Progress, c: ChunkBody): Result<Progress, ProtocolError>
  {
    if c.offset != |p.bytes| || c.rawBytes == 0 || c.rawBytes > CHUNK_BYTES || |c.base64| > MAX_BASE64_BYTES
    then Err(InvalidChunk)
    else
      match Base64.Decode(c.base64)
      case None => Err(InvalidChunk)
      case Some(decoded) =>
        if |decoded| != c.rawBytes then Err(InvalidChunk)
        else if p.dataFrames + 1 > U32_MAX then Err(SequenceOverflow)
        else if |p.bytes| + |decoded| > USIZE_MAX then Err(InvalidChunk)
        else if p.dataFrames + 1 > s.frames || |p.bytes| + |decoded| > s.totalBytes then Err(InvalidChunk)
        else Ok(Progress(p.dataFrames + 1, p.bytes + decoded))
  }

  /** The end of the stream: `validate_notes_content_end`, the digest, UTF-8 and the output's own checks. */
  function Finish(world: World, command: Command, s: StartBody, p: Progress, e: EndBody): Result<Output, ProtocolError>
  {
    if e != EndBody(s.schema, s.kind, s.totalBytes, s.sha256, s.frames)
       || p.dataFrames != s.frames || |p.bytes| != s.totalBytes then Err(InvalidEnd)
    else if world.sha256(p.bytes) != s.sha256 then Err(InvalidEnd)
    else if !world.utf8(p.bytes) then Err(InvalidEnd)
    else if s.kind.DocumentKind? && command.Get? then
      if s.note.None? || s.note.value.id != command.id || s.note.value.bodySha256 != s.sha256 then Err(InvalidEnd)
      else if !ValidSummary(s.note.value) || |p.bytes| != s.note.value.bodyBytes then Err(InvalidEnd)
      else Ok(DocumentOutput(s.note.value, p.bytes))
    else if s.kind.ExportKind? && command.Export? && s.kind.format == command.format then
      if s.note.Some? then Err(InvalidEnd)
      else if |p.bytes| > MAX_EXPORT_BYTES || !ValidSha256(s.sha256) then Err(InvalidEnd)
      else Ok(ExportOutput(s.kind.format, s.totalBytes, s.sha256, p.bytes))
    else Err(UnexpectedBody)
  }

  function Reader(world: World, command: Command): Protocol<StartBody, ChunkBody, Progress, EndBody, Output>
  {
    Protocol(
      s => ValidStart(s, command), (s: StartBody) => s.frames, s => START_OF_LOOP,
      (s, p, c) => Accept(s, p, c), (s, id, p, e) => Finish(world, command, s, p, e))
  }

  /** `notes_response_budget`. */
  function BudgetFor(command: Command): Budget
  {
    if command.Export? then EXPORT_BUDGET else RESPONSE_BUDGET
  }

  // ----- what an accepted stream is

  predicate Sized(parts: seq<Bytes>)
  {
    forall i :: 0 <= i < |parts| ==> 1 <= |parts[i]| <= CHUNK_BYTES
  }

  function ChunkFor(offset: nat, part: Bytes): ChunkBody
  {
    ChunkBody(offset, |part|, Base64.Encode(part))
  }

  /** The chunks of a list of parts: each at the offset where the earlier ones end. */
  function Chunks(parts: seq<Bytes>): seq<ChunkBody>
  {
    if parts == [] then []
    else
      var init := parts[..|parts| - 1];
      Chunks(init) + [ChunkFor(|Flat(init)|, parts[|parts| - 1])]
  }

  function Content(o: Output): Bytes
  {
    if o.DocumentOutput? then o.body else o.content
  }

  function Sha256Of(o: Output): string
  {
    if o.DocumentOutput? then o.summary.bodySha256 else o.sha256
  }

  function KindOf(o: Output): Kind
  {
    if o.DocumentOutput? then DocumentKind else ExportKind(o.format)
  }

  /** The note or export the command asked for, consistent with its digest and length. */
  predicate ValidOutput(world: World, command: Command, o: Output)
  {
    && Sha256Of(o) == world.sha256(Content(o)) && world.utf8(Content(o)) && ValidSha256(Sha256Of(o))
    && match o
       case DocumentOutput(summary, body) =>
         command == Get(summary.id) && ValidSummary(summary) && summary.bodyBytes == |body|
       case ExportOutput(format, contentBytes, _, content) =>
         command == Export(format) && contentBytes == |content| <= MAX_EXPORT_BYTES
  }

  /** Start and End declare the output and exactly as many chunks as its content needs. */
  predicate Declares(start: StartBody, end: EndBody, o: Output)
  {
    && start.schema == SCHEMA_VERSION && start.kind == KindOf(o)
    && start.note == (if o.DocumentOutput? then Some(o.summary) else None)
    && start.totalBytes == |Content(o)| && start.sha256 == Sha256Of(o)
    && start.frames == CeilDiv(|Content(o)|)
    && end == EndBody(SCHEMA_VERSION, start.kind, start.totalBytes, start.sha256, start.frames)
  }

  predicate Represents(world: World, command: Command, start: StartBody, parts: seq<Bytes>, end: EndBody, o: Output)
  {
    && ValidOutput(world, command, o)
    && Declares(start, end, o)
    && Sized(parts) && Flat(parts) == Content(o) && |parts| == CeilDiv(|Content(o)|)
  }

  // ----- the loop's variables after a prefix of the parts

  function After(parts: seq<Bytes>): Progress
  {
    Progress(|parts|, Flat(parts))
  }

  predicate Fits(s: StartBody, parts: seq<Bytes>)
  {
    Sized(parts) && |parts| <= s.frames && |Flat(parts)| <= s.totalBytes
  }

  /** The base64 of a chunk of allowed size never exceeds its limit, and reaches it. */
  lemma Base64Fits(part: Bytes)
    requires |part| <= CHUNK_BYTES
    ensures |Base64.Encode(part)| <= MAX_BASE64_BYTES
    ensures |part| == CHUNK_BYTES ==> |Base64.Encode(part)| == MAX_BASE64_BYTES
  {
    Base64.EncodedLength(part);
    EncodedBound(|part|);
  }

  lemma EncodedBound(n: nat)
    ensures n <= CHUNK_BYTES ==> (n + 2) / 3 * 4 <= MAX_BASE64_BYTES
    ensures n == CHUNK_BYTES ==> (n + 2) / 3 * 4 == MAX_BASE64_BYTES
  {
  }

  lemma Snoc(parts: seq<Bytes>, part: Bytes)
    ensures Flat(parts + [part]) == Flat(parts) + part
    ensures Chunks(parts + [part]) == Chunks(parts) + [ChunkFor(|Flat(parts)|, part)]
  {
    var more := parts + [part];
    assert more[..|more| - 1] == parts && more[|more| - 1] == part;
  }

  lemma SizedSnoc(parts: seq<Bytes>, part: Bytes)
    ensures Sized(parts + [part]) <==> Sized(parts) && 1 <= |part| <= CHUNK_BYTES
  {
    var more := parts + [part];
    assert more[|parts|] == part;
    assert forall i :: 0 <= i < |parts| ==> more[i] == parts[i];
  }

  lemma Extends(s: StartBody, parts: seq<Bytes>, part: Bytes)
    ensures Flat(parts + [part]) == Flat(parts) + part
    ensures Chunks(parts + [part]) == Chunks(parts) + [ChunkFor(|Flat(parts)|, part)]
    ensures Fits(s, parts + [part]) <==>
      Sized(parts) && 1 <= |part| <= CHUNK_BYTES && |parts| + 1 <= s.frames && |Flat(parts)| + |part| <= s.totalBytes
  {
    Snoc(parts, part);
    SizedSnoc(parts, part);
  }

  /** The chunk of a part decodes to it, within the limit when the part is. */
  lemma ChunkDecodes(offset: nat, part: Bytes)
    ensures var c := ChunkFor(offset, part);
      && c.offset == offset && c.rawBytes == |part| && Base64.Decode(c.base64) == Some(part)
      && (|part| <= CHUNK_BYTES ==> |c.base64| <= MAX_BASE64_BYTES)
  {
    Base64.DecodeEncode(part);
    if |part| <= CHUNK_BYTES { Base64Fits(part); }
  }

  /** The checks on a chunk that decodes to `part`. */
  lemma AcceptDecoded(s: StartBody, p: Progress, c: ChunkBody, part: Bytes)
    requires c.offset == |p.bytes| && c.rawBytes == |part| && Base64.Decode(c.base64) == Some(part)
    requires |part| <= CHUNK_BYTES ==> |c.base64| <= MAX_BASE64_BYTES
    ensures Accept(s, p, c).Ok? <==>
      1 <= |part| <= CHUNK_BYTES && p.dataFrames + 1 <= s.frames && |p.bytes| + |part| <= s.totalBytes
    ensures Accept(s, p, c).Ok? ==> Accept(s, p, c).value == Progress(p.dataFrames + 1, p.bytes + part)
  {
  }

  /** The chunk of a part is accepted after fitting parts exactly when the longer list fits. */
  lemma AcceptsPart(s: StartBody, parts: seq<Bytes>, part: Bytes)
    requires Fits(s, parts)
    ensures Accept(s, After(parts), ChunkFor(|Flat(parts)|, part)).Ok? <==> Fits(s, parts + [part])
    ensures Fits(s, parts + [part]) ==>
      Accept(s, After(parts), ChunkFor(|Flat(parts)|, part)) == Ok(After(parts + [part]))
  {
    Extends(s, parts, part);
    ChunkDecodes(|Flat(parts)|, part);
    AcceptDecoded(s, After(parts), ChunkFor(|Flat(parts)|, part), part);
  }

  /** And an accepted chunk is the chunk of a part. */
  lemma AcceptedIsPart(s: StartBody, parts: seq<Bytes>, c: ChunkBody)
    requires Accept(s, After(parts), c).Ok?
    ensures Base64.Decode(c.base64).Some? && c == ChunkFor(|Flat(parts)|, Base64.Decode(c.base64).value)
  {
    Base64.EncodeDecode(c.base64);
  }

  lemma StepSound(s: StartBody, done: seq<Bytes>, c: ChunkBody) returns (longer: seq<Bytes>)
    requires Fits(s, done) && Accept(s, After(done), c).Ok?
    ensures Fits(s, longer) && Accept(s, After(done), c).value == After(longer)
    ensures |longer| == |done| + 1 && Chunks(longer) == Chunks(done) + [c]
  {
    AcceptedIsPart(s, done, c);
    var part := Base64.Decode(c.base64).value;
    AcceptsPart(s, done, part);
    Extends(s, done, part);
    longer := done + [part];
  }

  lemma Regroup(before: seq<ChunkBody>, cs: seq<ChunkBody>)
    requires cs != []
    ensures before + cs == (before + [cs[0]]) + cs[1..]
  {
  }

  /** A fold over chunks succeeds only on the chunks of parts that fit. */
  lemma {:induction false} FoldSound(
    world: World, command: Command, s: StartBody, done: seq<Bytes>, cs: seq<ChunkBody>) returns (parts: seq<Bytes>)
    requires Fits(s, done) && Fold(Reader(world, command), s, After(done), cs).Ok?
    ensures Fits(s, parts) && |parts| == |done| + |cs|
    ensures Chunks(parts) == Chunks(done) + cs
    ensures Fold(Reader(world, command), s, After(done), cs).value == After(parts)
    decreases |cs|
  {
    if cs == [] {
      parts := done;
      assert Chunks(done) + cs == Chunks(done);
    } else {
      var c := cs[0];
      assert Reader(world, command).accept(s, After(done), c) == Accept(s, After(done), c);
      var longer := StepSound(s, done, c);
      parts := FoldSound(world, command, s, longer, cs[1..]);
      Regroup(Chunks(done), cs);
    }
  }

  lemma {:induction false} PrefixFits(s: StartBody, parts: seq<Bytes>, k: nat)
    requires k <= |parts|
    ensures Fits(s, parts) ==> Fits(s, parts[..k])
    decreases |parts|
  {
    if k == |parts| {
      assert parts[..k] == parts;
    } else {
      PrefixFits(s, parts[..|parts| - 1], k);
      assert parts[..|parts| - 1][..k] == parts[..k];
    }
  }

  /** The chunks of fitting parts are all accepted. */
  lemma {:induction false} FoldComplete(world: World, command: Command, s: StartBody, parts: seq<Bytes>)
    requires Fits(s, parts)
    ensures Fold(Reader(world, command), s, START_OF_LOOP, Chunks(parts)) == Ok(After(parts))
  {
    if parts == [] {
      assert After(parts) == START_OF_LOOP;
    } else {
      var init, part := parts[..|parts| - 1], parts[|parts| - 1];
      assert parts == init + [part];
      PrefixFits(s, parts, |init|);
      FoldComplete(world, command, s, init);
      AcceptsPart(s, init, part);
      Extends(s, init, part);
      var pr, c := Reader(world, command), ChunkFor(|Flat(init)|, part);
      FoldAppend(pr, s, START_OF_LOOP, Chunks(init), [c]);
      assert [c][1..] == [];
      assert Fold(pr, s, After(parts), []) == Ok(After(parts));
    }
  }

  // ----- the reader

  /** After the loop, the end checks yield exactly the declared output. */
  lemma FinishExactly(world: World, command: Command, start: StartBody, parts: seq<Bytes>, end: EndBody, o: Output)
    requires ValidStart(start, command)
    ensures Finish(world, command, start, After(parts), end) == Ok(o) <==>
      && ValidOutput(world, command, o) && Declares(start, end, o)
      && Flat(parts) == Content(o) && |parts| == CeilDiv(|Content(o)|)
  {
  }

  /** A declared output has a valid Start. */
  lemma DeclaredIsValid(world: World, command: Command, start: StartBody, end: EndBody, o: Output)
    requires ValidOutput(world, command, o) && Declares(start, end, o)
    ensures ValidStart(start, command)
  {
  }

  /**
   Content is returned only when the chunks are contiguous, non-empty, at most 45,056 bytes each, exactly
   as many as the length needs, and their bytes in order are the content, with its digest.
   */
  lemma ReaderSound(world: World, command: Command, w: Wire<Body<StartBody, ChunkBody, EndBody>>,
                    requestId: Uuid, o: Output)
    returns (id: Uuid, start: StartBody, parts: seq<Bytes>, end: EndBody)
    requires Read(Reader(world, command), w, requestId, BudgetFor(command)).result == Ok(o)
    ensures Carries(w, requestId, id, start, Chunks(parts), end)
    ensures Represents(world, command, start, parts, end, o)
  {
    var cs;
    id, start, cs, end := ReadIsLegal(Reader(world, command), w, requestId, BudgetFor(command));
    assert After([]) == START_OF_LOOP;
    parts := FoldSound(world, command, start, [], cs);
    assert Chunks([]) + cs == cs;
    FinishExactly(world, command, start, parts, end, o);
  }

  /** Frame counts stay within the budget of the command. */
  lemma ContentFrames(total: nat)
    ensures total <= MAX_BODY_BYTES ==> CeilDiv(total) + 2 <= MAX_RESPONSE_FRAMES
    ensures total <= MAX_EXPORT_BYTES ==> CeilDiv(total) + 2 <= MAX_NOTES_EXPORT_FRAMES
  {
  }

  lemma {:induction false} ChunksCount(parts: seq<Bytes>)
    ensures |Chunks(parts)| == |parts|
  {
    if parts == [] {
    } else {
      ChunksCount(parts[..|parts| - 1]);
    }
  }

  /** And every such stream is accepted and gives the content back. */
  lemma ReaderComplete(world: World, command: Command, w: Wire<Body<StartBody, ChunkBody, EndBody>>, requestId: Uuid,
                       id: Uuid, start: StartBody, parts: seq<Bytes>, end: EndBody, o: Output)
    requires Carries(w, requestId, id, start, Chunks(parts), end)
    requires Represents(world, command, start, parts, end, o)
    ensures Read(Reader(world, command), w, requestId, BudgetFor(command)).result == Ok(o)
  {
    DeclaredIsValid(world, command, start, end, o);
    FoldComplete(world, command, start, parts);
    FinishExactly(world, command, start, parts, end, o);
    ContentFrames(|Content(o)|);
    ChunksCount(parts);
    ResponseBudgetsAreRoomy();
    ReadAccepts(Reader(world, command), w, requestId, BudgetFor(command), id, start, Chunks(parts), end, o);
  }

  /** So the errors of this reader mean what `IpcStream.ReadErrorsExplained` says. */
  lemma ReaderIsPlain(world: World, command: Command)
    ensures Plain(Reader(world, command))
  {
  }

  lemma ReaderBounded(world: World, command: Command)
    ensures Bounded(Reader(world, command), BudgetFor(command).maxFrames)
  {
    var pr := Reader(world, command);
    forall start: StartBody | pr.validStart(start)
      ensures pr.declared(start) + 2 <= BudgetFor(command).maxFrames
    {
      ContentFrames(start.totalBytes);
    }
    forall start: StartBody, cs: seq<ChunkBody> | pr.validStart(start) && Fold(pr, start, pr.initial(start), cs).Ok?
      ensures |cs| <= pr.declared(start)
    {
      assert After([]) == START_OF_LOOP;
      var parts := FoldSound(world, command, start, [], cs);
    }
  }

  /** The content branch of `request_notes`, once connected. */
  method RequestContent(world: World, command: Command, connection: Connection, requestId: Uuid,
                        parse: Payload -> Option<Envelope<Body<StartBody, ChunkBody, EndBody>>>)
    returns (r: Result<Output, ClientError>)
    modifies connection
    ensures r ==
      Read(Reader(world, command), Deframe(old(connection.bytes), parse), requestId, BudgetFor(command)).result
    ensures r != Err(Framing(FrameLimitExceeded))
    ensures r == Err(Framing(WireBytesExceeded)) ==>
      var w := Deframe(old(connection.bytes), parse);
      ReachesOversize(w, Read(Reader(world, command), w, requestId, BudgetFor(command)).taken)
  {
    var limits := BudgetFor(command);
    var budget := new WireBudget(limits.maxFrames, limits.maxWireBytes);
    ReaderBounded(world, command);
    ResponseBudgetsAreRoomy();
    ReadWithinLimits(Reader(world, command), Deframe(connection.bytes, parse), requestId, limits);
    r := ReadStream(Reader(world, command), connection, requestId, budget, parse);
  }

  // ----- the server's chunking

  /** `as_bytes().chunks(45056)`: full chunks, the last one what is left. */
  function Cut(content: Bytes): seq<Bytes>
  {
    if content == [] then []
    else if |content| <= CHUNK_BYTES then [content]
    else [content[..CHUNK_BYTES]] + Cut(content[CHUNK_BYTES..])
  }

  /** The loop of `NotesPlan::content`, with its running offset. */
  method CutContent(content: Bytes) returns (chunks: seq<ChunkBody>)
    ensures chunks == Chunks(Cut(content))
  {
    chunks := [];
    var offset := 0;
    ghost var parts: seq<Bytes> := [];
    while offset < |content|
      invariant 0 <= offset <= |content|
      invariant chunks == Chunks(parts) && |Flat(parts)| == offset
      invariant Cut(content) == parts + Cut(content[offset..])
      decreases |content| - offset
    {
      var left := |content| - offset;
      var size := if left <= CHUNK_BYTES then left else CHUNK_BYTES;
      var bytes := content[offset..offset + size];
      Snoc(parts, bytes);
      CutNext(content, offset);
      RegroupParts(parts, bytes, Cut(content[offset + size..]));
      chunks := chunks + [ChunkBody(offset, |bytes|, Base64.Encode(bytes))];
      parts := parts + [bytes];
      offset := offset + size;
    }
    assert content[offset..] == [];
    assert parts + [] == parts;
  }

  lemma RegroupParts(before: seq<Bytes>, part: Bytes, rest: seq<Bytes>)
    ensures before + ([part] + rest) == (before + [part]) + rest
  {
  }

  lemma CutNext(content: Bytes, offset: nat)
    requires offset < |content|
    ensures var size := if |content| - offset <= CHUNK_BYTES then |content| - offset else CHUNK_BYTES;
            Cut(content[offset..]) == [content[offset..offset + size]] + Cut(content[offset + size..])
  {
    var rest := content[offset..];
    if |rest| <= CHUNK_BYTES {
      assert rest == content[offset..offset + |rest|];
    } else {
      assert rest[..CHUNK_BYTES] == content[offset..offset + CHUNK_BYTES];
      assert rest[CHUNK_BYTES..] == content[offset + CHUNK_BYTES..];
    }
  }

  lemma {:induction false} FlatCons(part: Bytes, parts: seq<Bytes>)
    ensures Flat([part] + parts) == part + Flat(parts)
  {
    if parts == [] {
      assert ([part] + parts)[..0] == [] && [part] + parts == [part];
    } else {
      var init := parts[..|parts| - 1];
      FlatCons(part, init);
      assert ([part] + parts)[..|parts|] == [part] + init;
      Assoc(part, Flat(init), parts[|parts| - 1]);
    }
  }

  /** The canonical chunks are well-sized, as many as the length needs, and concatenate to the content. */
  lemma {:induction false} CutIsCanonical(content: Bytes)
    ensures Sized(Cut(content)) && Flat(Cut(content)) == content && |Cut(content)| == CeilDiv(|content|)
    decreases |content|
  {
    if 0 < |content| <= CHUNK_BYTES {
      FlatCons(content, []);
      assert [content] + [] == [content];
    } else if |content| > CHUNK_BYTES {
      var rest := content[CHUNK_BYTES..];
      CutIsCanonical(rest);
      FlatCons(content[..CHUNK_BYTES], Cut(rest));
    }
  }

  /**
   The canonical chunking of any valid note body up to 4 MiB, or export up to 26,943,488 bytes, sent as
   frames within the payload limit, is accepted and gives that output back.
   */
  lemma CanonicalStreamIsRead(world: World, command: Command, w: Wire<Body<StartBody, ChunkBody, EndBody>>,
                              requestId: Uuid, id: Uuid, start: StartBody, end: EndBody, o: Output)
    requires ValidOutput(world, command, o) && Declares(start, end, o)
    requires Carries(w, requestId, id, start, Chunks(Cut(Content(o))), end)
    ensures Read(Reader(world, command), w, requestId, BudgetFor(command)).result == Ok(o)
  {
    CutIsCanonical(Content(o));
    ReaderComplete(world, command, w, requestId, id, start, Cut(Content(o)), end, o);
  }
}
