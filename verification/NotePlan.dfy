/** How the server sends a note body or an export (`crates/ipc/src/server.rs`). */
module NotePlan {
  import opened Wrappers
  import opened Common
  import opened LengthPrefix
  import opened IpcFrame
  import opened IpcStream
  import opened IpcPlan
  import opened NoteStream

  type NoteBody = Body<StartBody, ChunkBody, EndBody>

  /** The output's own checks and the digest: what the server tests before it sends. */
  predicate Sendable(world: World, o: Output)
  {
    && Sha256Of(o) == world.sha256(Content(o))
    && match o
       case DocumentOutput(summary, body) => ValidSummary(summary) && |body| == summary.bodyBytes
       case ExportOutput(_, contentBytes, sha256, content) =>
         |content| == contentBytes && |content| <= MAX_EXPORT_BYTES && ValidSha256(sha256)
  }

  /** The command asked for this output. */
  predicate Asked(command: Command, o: Output)
  {
    command == if o.DocumentOutput? then Get(o.summary.id) else Export(o.format)
  }

  function StartFor(world: World, o: Output): StartBody
    requires Sendable(world, o)
  {
    StartBody(SCHEMA_VERSION, KindOf(o), if o.DocumentOutput? then Some(o.summary) else None,
              |Content(o)|, Sha256Of(o), CeilDiv(|Content(o)|))
  }

  function EndFor(world: World, o: Output): EndBody
    requires Sendable(world, o)
  {
    EndBody(SCHEMA_VERSION, KindOf(o), |Content(o)|, Sha256Of(o), CeilDiv(|Content(o)|))
  }

  function BodiesFor(world: World, o: Output): seq<NoteBody>
    requires Sendable(world, o)
  {
    Bodies(StartFor(world, o), Chunks(Cut(Content(o))), EndFor(world, o))
  }

  function LimitsFor(o: Output): Budget
  {
    if o.DocumentOutput? then RESPONSE_BUDGET else EXPORT_BUDGET
  }

  lemma FramesWithinLimits(world: World, o: Output)
    requires Sendable(world, o)
    ensures |BodiesFor(world, o)| <= LimitsFor(o).maxFrames
  {
    CutIsCanonical(Content(o));
    ChunksCount(Cut(Content(o)));
    ContentFrames(|Content(o)|);
  }

  /**
   `NotesPlan::document`, `export` and `content`. A plan is built exactly when the output passes its checks
   and every message fits its frame, whatever the length allowed; and the client that reads the plan gets
   exactly this output if and only if it asked for it. The content is a string, hence UTF-8, and a drawn
   identifier is never nil.
   */
  method BuildContentPlan(world: World, o: Output, command: Command, requestId: Uuid, id: Uuid,
                          size: Envelope<NoteBody> -> nat) returns (r: Option<Wire<NoteBody>>)
    requires world.utf8(Content(o)) && id != 0
    ensures r.Some? <==> Sendable(world, o) && BodiesFit(Context(requestId, id, size), BodiesFor(world, o))
    ensures r.Some? ==>
      (Read(Reader(world, command), r.value, requestId, BudgetFor(command)).result == Ok(o) <==> Asked(command, o))
  {
    if !Sendable(world, o) { return None; }
    var x := Context(requestId, id, size);
    var chunks := CutContent(Content(o));
    FramesWithinLimits(world, o);
    ResponseBudgetsAreRoomy();
    r := Encode(x, Bodies(StartFor(world, o), chunks, EndFor(world, o)), LimitsFor(o));
    if r.Some? { ContentPlanIsRead(world, x, r.value, o, command); }
  }

  /** The encoded plan of a sendable output is read as that output exactly by the command that asked for it. */
  lemma ContentPlanIsRead(world: World, x: Context<NoteBody>, w: Wire<NoteBody>, o: Output, command: Command)
    requires world.utf8(Content(o)) && x.id != 0 && Sendable(world, o)
    requires Encodes(x, w, BodiesFor(world, o))
    ensures Read(Reader(world, command), w, x.requestId, BudgetFor(command)).result == Ok(o) <==> Asked(command, o)
  {
    var start, end := StartFor(world, o), EndFor(world, o);
    EncodedCarries(x, w, start, Chunks(Cut(Content(o))), end);
    if Asked(command, o) {
      CanonicalStreamIsRead(world, command, w, x.requestId, x.id, start, end, o);
    }
    if Read(Reader(world, command), w, x.requestId, BudgetFor(command)).result == Ok(o) {
      var _, _, _, _ := ReaderSound(world, command, w, x.requestId, o);
    }
  }
}
