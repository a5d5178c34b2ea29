/**
 The collector in the daemon and the helper process as one state machine. A step is one send, one
 receive, one computation, one crash or one give-up; a session is the two pipes and the process
 behind them, and dropping it kills the process and discards both pipes.
 */
module HelperSession {
  import opened Wrappers
  import opened Common
  import opened HelperProtocol

  /** A record returned to the monitor. */
  datatype Traffic = Traffic(cgroup: nat, key: string, rx: nat, tx: nat)

  // ----- attaching the application keys

  function KeysOf(bindings: seq<Binding>): map<nat, string>
  {
    if bindings == [] then map[]
    else KeysOf(bindings[..|bindings| - 1])[bindings[|bindings| - 1].cgroup := bindings[|bindings| - 1].key]
  }

  /** With distinct identifiers the table holds exactly the bindings. */
  lemma {:induction false} KeysAreBindings(bindings: seq<Binding>)
    requires DistinctBindings(bindings)
    ensures forall i :: 0 <= i < |bindings| ==>
              bindings[i].cgroup in KeysOf(bindings) && KeysOf(bindings)[bindings[i].cgroup] == bindings[i].key
    ensures forall id | id in KeysOf(bindings) :: exists i :: 0 <= i < |bindings| && bindings[i].cgroup == id
  {
    if bindings != [] {
      var init := bindings[..|bindings| - 1];
      KeysAreBindings(init);
      forall id | id in KeysOf(bindings)
        ensures exists i :: 0 <= i < |bindings| && bindings[i].cgroup == id
      {
        if id in KeysOf(init) {
          var i :| 0 <= i < |init| && init[i].cgroup == id;
          assert bindings[i].cgroup == id;
        } else {
          assert bindings[|bindings| - 1].cgroup == id;
        }
      }
    }
  }

  /** Each record is the counter of the same position under the key bound to its cgroup. */
  predicate Labels(records: seq<Counter>, bindings: seq<Binding>, out: seq<Traffic>)
  {
    && |out| == |records|
    && forall i :: 0 <= i < |out| ==>
         && out[i].cgroup == records[i].cgroup && out[i].rx == records[i].rx && out[i].tx == records[i].tx
         && Binding(out[i].cgroup, out[i].key) in bindings
  }

  predicate Requested(records: seq<Counter>, bindings: seq<Binding>)
  {
    forall i :: 0 <= i < |records| ==> records[i].cgroup in KeysOf(bindings)
  }

  function Labelled(records: seq<Counter>, bindings: seq<Binding>): Option<seq<Traffic>>
  {
    if Requested(records, bindings) then
      Some(seq(|records|, i requires 0 <= i < |records| =>
        Traffic(records[i].cgroup, KeysOf(bindings)[records[i].cgroup], records[i].rx, records[i].tx)))
    else None
  }

  lemma LabelledLabels(records: seq<Counter>, bindings: seq<Binding>)
    requires DistinctBindings(bindings) && Labelled(records, bindings).Some?
    ensures Labels(records, bindings, Labelled(records, bindings).value)
  {
    KeysAreBindings(bindings);
    var out := Labelled(records, bindings).value;
    forall k | 0 <= k < |out|
      ensures Binding(out[k].cgroup, out[k].key) in bindings
    {
      var i :| 0 <= i < |bindings| && bindings[i].cgroup == records[k].cgroup;
      assert bindings[i] == Binding(out[k].cgroup, out[k].key);
    }
  }

  /** The records are labelled exactly when each is of a cgroup the request binds. */
  lemma LabelledExactly(records: seq<Counter>, bindings: seq<Binding>)
    requires DistinctBindings(bindings)
    ensures Labelled(records, bindings).Some? <==> forall i :: 0 <= i < |records| ==> Binds(bindings, records[i].cgroup)
  {
    KeysAreBindings(bindings);
    forall i | 0 <= i < |records|
      ensures records[i].cgroup in KeysOf(bindings) <==> Binds(bindings, records[i].cgroup)
    {
      if Binds(bindings, records[i].cgroup) {
        var j :| 0 <= j < |bindings| && bindings[j].cgroup == records[i].cgroup;
        assert bindings[j].cgroup in KeysOf(bindings);
      }
    }
  }

  predicate Binds(bindings: seq<Binding>, cgroup: nat)
  {
    exists j :: 0 <= j < |bindings| && bindings[j].cgroup == cgroup
  }

  /** The record loop of `collect`. */
  method LabelRecords(records: seq<Counter>, bindings: seq<Binding>) returns (r: Option<seq<Traffic>>)
    ensures r == Labelled(records, bindings)
  {
    var keys: map<nat, string> := map[];
    for i := 0 to |bindings|
      invariant keys == KeysOf(bindings[..i])
    {
      assert bindings[..i + 1][..i] == bindings[..i];
      keys := keys[bindings[i].cgroup := bindings[i].key];
    }
    assert bindings[..|bindings|] == bindings;
    var out: seq<Traffic> := [];
    for i := 0 to |records|
      invariant |out| == i
      invariant forall j :: 0 <= j < i ==> records[j].cgroup in keys
      invariant forall j :: 0 <= j < i ==>
        out[j] == Traffic(records[j].cgroup, keys[records[j].cgroup], records[j].rx, records[j].tx)
    {
      if records[i].cgroup !in keys { return None; }
      out := out + [Traffic(records[i].cgroup, keys[records[i].cgroup], records[i].rx, records[i].tx)];
    }
    r := Some(out);
    assert out == Labelled(records, bindings).value;
  }

  // ----- the two processes

  datatype Helper = Reading | Computing(request: Request) | Dead

  datatype Session = Session(id: nat, toHelper: seq<Request>, toDaemon: seq<Reply>, helper: Helper)

  datatype Phase = Idle | Awaiting(request: Request)

  /** History: the helper of `session` computed `snapshot` from `request`. */
  datatype Computation = Computation(session: nat, request: Request, snapshot: CounterSnapshot)

  /** History: `collect` returned `records` for `request`, received over `session`. */
  datatype Returned = Returned(session: nat, request: Request, snapshot: CounterSnapshot, records: seq<Traffic>)

  datatype State = State(
    generation: nat,
    session: Option<Session>,
    phase: Phase,
    spawned: nat,
    computed: set<Computation>,
    returned: seq<Returned>,
    mismatches: nat,
    zeroReplies: nat)

  const INITIAL := State(0, None, Idle, 0, {}, [], 0, 0)

  datatype Step =
    /** `collect` cannot read the bindings. */
    | BindingsFail
    /** `collect` up to the written request; the flags say whether spawning, encoding and writing succeed. */
    | Begin(bindings: seq<Binding>, spawns: bool, fits: bool, writes: bool)
    /** `collect` reads a reply that decodes. */
    | Receive
    /** `collect` meets a timeout, end of file, an I/O error or an undecodable reply. */
    | GiveUp
    /** The helper reads a frame; `reason` is the text of its error when the request does not decode. */
    | HelperTakes(reason: string)
    /** The helper's collector finishes; `fits` says whether the reply fits a frame. */
    | HelperComputes(result: Result<CounterSnapshot, string>, fits: bool)
    | HelperDies

  /** `fail`: the session is dropped. */
  function Fail(s: State): State
  {
    s.(session := None, phase := Idle)
  }

  /** `ensure_session`, given that any spawn it needs succeeds. */
  function EnsureSession(s: State): State
  {
    if s.session.Some? then s
    else s.(session := Some(Session(s.spawned, [], [], Reading)), spawned := s.spawned + 1)
  }

  function DoBegin(s: State, bindings: seq<Binding>, spawns: bool, fits: bool, writes: bool): State
  {
    if s.generation == U64_MAX then Fail(s)
    else
      var t := s.(generation := s.generation + 1);
      var request := Request(PROTOCOL_VERSION, t.generation, bindings);
      if t.session.None? && !spawns then Fail(t)
      else
        var u := EnsureSession(t);
        if !ValidRequest(request) || !fits || !writes then Fail(u)
        else
          u.(session := Some(u.session.value.(toHelper := u.session.value.toHelper + [request])),
             phase := Awaiting(request))
  }

  function DoReceive(s: State): State
    requires s.phase.Awaiting? && s.session.Some? && s.session.value.toDaemon != []
  {
    var session, request := s.session.value, s.phase.request;
    var reply := session.toDaemon[0];
    if reply.generation != request.generation then Fail(s.(mismatches := s.mismatches + 1))
    else
      match reply.body
      case ErrorBody(_) => Fail(s)
      case SnapshotBody(snapshot) =>
        var records := Labelled(snapshot.records, request.bindings);
        if records.None? then Fail(s)
        else
          s.(session := Some(session.(toDaemon := session.toDaemon[1..])),
             phase := Idle,
             returned := s.returned + [Returned(session.id, request, snapshot, records.value)])
  }

  /** Writing a reply: an invalid or oversized one ends the helper. */
  function Send(session: Session, reply: Reply, fits: bool): Session
  {
    if ValidReply(reply) && fits then session.(toDaemon := session.toDaemon + [reply], helper := Reading)
    else session.(helper := Dead)
  }

  function DoTake(s: State, reason: string): State
    requires s.session.Some? && s.session.value.helper.Reading? && s.session.value.toHelper != []
  {
    var session := s.session.value;
    var request := session.toHelper[0];
    var rest := session.(toHelper := session.toHelper[1..]);
    if ValidRequest(request) then s.(session := Some(rest.(helper := Computing(request))))
    else
      s.(session := Some(Send(rest, Reply(PROTOCOL_VERSION, 0, ErrorBody(reason)), true)),
         zeroReplies := s.zeroReplies + 1)
  }

  function DoCompute(s: State, result: Result<CounterSnapshot, string>, fits: bool): State
    requires s.session.Some? && s.session.value.helper.Computing?
  {
    var session := s.session.value;
    var request := session.helper.request;
    match result
    case Ok(snapshot) =>
      s.(session := Some(Send(session, Reply(PROTOCOL_VERSION, request.generation, SnapshotBody(snapshot)), fits)),
         computed := s.computed + {Computation(session.id, request, snapshot)})
    case Err(reason) =>
      s.(session := Some(Send(session, Reply(PROTOCOL_VERSION, request.generation, ErrorBody(reason)), fits)))
  }

  predicate Enabled(s: State, step: Step)
  {
    match step
    case BindingsFail => s.phase.Idle?
    case Begin(_, _, _, _) => s.phase.Idle?
    case Receive => s.phase.Awaiting? && s.session.Some? && s.session.value.toDaemon != []
    case GiveUp => s.phase.Awaiting?
    case HelperTakes(_) => s.session.Some? && s.session.value.helper.Reading? && s.session.value.toHelper != []
    case HelperComputes(_, _) => s.session.Some? && s.session.value.helper.Computing?
    case HelperDies => s.session.Some?
  }

  function Next(s: State, step: Step): State
    requires Enabled(s, step)
  {
    match step
    case BindingsFail => Fail(s)
    case Begin(bindings, spawns, fits, writes) => DoBegin(s, bindings, spawns, fits, writes)
    case Receive => DoReceive(s)
    case GiveUp => Fail(s)
    case HelperTakes(reason) => DoTake(s, reason)
    case HelperComputes(result, fits) => DoCompute(s, result, fits)
    case HelperDies => s.(session := Some(s.session.value.(helper := Dead)))
  }

  predicate ValidRun(s: State, steps: seq<Step>)
    decreases |steps|
  {
    steps == [] || (Enabled(s, steps[0]) && ValidRun(Next(s, steps[0]), steps[1..]))
  }

  function Execute(s: State, steps: seq<Step>): State
    requires ValidRun(s, steps)
    decreases |steps|
  {
    if steps == [] then s else Execute(Next(s, steps[0]), steps[1..])
  }

  // ----- the invariant

  /** A reply that answers `request`, and whose snapshot, if any, was computed from it in this session. */
  predicate Answers(reply: Reply, session: nat, request: Request, computed: set<Computation>)
  {
    && reply.generation == request.generation && ValidReply(reply)
    && (reply.body.SnapshotBody? ==> Computation(session, request, reply.body.snapshot) in computed)
  }

  /** No frame unread, none unanswered. */
  predicate Quiet(session: Session)
  {
    session.toHelper == [] && session.toDaemon == [] && !session.helper.Computing?
  }

  /** Exactly one frame is in flight for `request`: asked, being computed, or answered; or the helper is gone. */
  predicate InFlight(session: Session, request: Request, computed: set<Computation>)
  {
    || (session.toHelper == [request] && session.toDaemon == [] && !session.helper.Computing?)
    || (session.toHelper == [] && session.toDaemon == [] && session.helper == Computing(request))
    || (session.toHelper == [] && |session.toDaemon| == 1 && !session.helper.Computing?
        && Answers(session.toDaemon[0], session.id, request, computed))
    || (session.toHelper == [] && session.toDaemon == [] && session.helper.Dead?)
  }

  /** What `collect` returned was computed from its own request, over the same session, and carries its keys. */
  predicate Backed(r: Returned, computed: set<Computation>)
  {
    && ValidRequest(r.request) && ValidSnapshot(r.snapshot)
    && Computation(r.session, r.request, r.snapshot) in computed
    && Labels(r.snapshot.records, r.request.bindings, r.records)
  }

  predicate AllBacked(returned: seq<Returned>, computed: set<Computation>)
  {
    forall i :: 0 <= i < |returned| ==> Backed(returned[i], computed)
  }

  /** Generations of returned results grow, and stay within `bound`. */
  predicate Ordered(returned: seq<Returned>, bound: nat)
  {
    && (forall i :: 0 <= i < |returned| ==> returned[i].request.generation <= bound)
    && (forall i, j :: 0 <= i < j < |returned| ==> returned[i].request.generation < returned[j].request.generation)
  }

  predicate SessionInv(session: Option<Session>, phase: Phase, spawned: nat, generation: nat,
                       computed: set<Computation>)
  {
    match session
    case None => phase.Idle?
    case Some(live) =>
      && live.id < spawned
      && match phase
         case Idle => Quiet(live)
         case Awaiting(request) =>
           ValidRequest(request) && request.generation == generation && InFlight(live, request, computed)
  }

  predicate Inv(s: State)
  {
    && SessionInv(s.session, s.phase, s.spawned, s.generation, s.computed)
    && AllBacked(s.returned, s.computed)
    && Ordered(s.returned, if s.phase.Awaiting? && s.generation > 0 then s.generation - 1 else s.generation)
    && s.mismatches == 0
    && s.zeroReplies == 0
  }

  lemma BeginKeepsInv(s: State, bindings: seq<Binding>, spawns: bool, fits: bool, writes: bool)
    requires Inv(s) && s.phase.Idle?
    ensures Inv(DoBegin(s, bindings, spawns, fits, writes))
  {
  }

  lemma ReceiveKeepsInv(s: State)
    requires Inv(s) && Enabled(s, Receive)
    ensures Inv(DoReceive(s))
  {
    var session, request := s.session.value, s.phase.request;
    assert Answers(session.toDaemon[0], session.id, request, s.computed);
    if session.toDaemon[0].body.SnapshotBody? {
      var records := session.toDaemon[0].body.snapshot.records;
      if Labelled(records, request.bindings).Some? {
        LabelledLabels(records, request.bindings);
      }
    }
  }

  lemma TakeKeepsInv(s: State, reason: string)
    requires Inv(s) && Enabled(s, HelperTakes(reason))
    ensures Inv(DoTake(s, reason))
  {
  }

  lemma ComputeKeepsInv(s: State, result: Result<CounterSnapshot, string>, fits: bool)
    requires Inv(s) && Enabled(s, HelperComputes(result, fits))
    ensures Inv(DoCompute(s, result, fits))
  {
    assert s.phase == Awaiting(s.session.value.helper.request);
  }

  lemma StepKeepsInv(s: State, step: Step)
    requires Inv(s) && Enabled(s, step)
    ensures Inv(Next(s, step))
  {
    match step
    case BindingsFail =>
    case Begin(bindings, spawns, fits, writes) => BeginKeepsInv(s, bindings, spawns, fits, writes);
    case Receive => ReceiveKeepsInv(s);
    case GiveUp =>
    case HelperTakes(reason) => TakeKeepsInv(s, reason);
    case HelperComputes(result, fits) => ComputeKeepsInv(s, result, fits);
    case HelperDies =>
  }

  lemma {:induction false} RunKeepsInv(s: State, steps: seq<Step>)
    requires Inv(s) && ValidRun(s, steps)
    ensures Inv(Execute(s, steps))
    decreases |steps|
  {
    if steps == [] {
    } else {
      StepKeepsInv(s, steps[0]);
      RunKeepsInv(Next(s, steps[0]), steps[1..]);
    }
  }

  // ----- what a collect does

  /**
   Starting a collect draws the next generation and, when the session is there or spawns and the request is valid
   and goes out, leaves exactly that request on its way; anything else drops the session.
   */
  lemma BeginExactly(s: State, bindings: seq<Binding>, spawns: bool, fits: bool, writes: bool)
    requires s.phase.Idle? && s.generation <= U64_MAX
    ensures var n := DoBegin(s, bindings, spawns, fits, writes);
            var request := Request(PROTOCOL_VERSION, s.generation + 1, bindings);
      && n.returned == s.returned && n.computed == s.computed
      && n.generation == (if s.generation == U64_MAX then s.generation else s.generation + 1)
      && if s.generation < U64_MAX && (s.session.Some? || spawns) && ValidRequest(request) && fits && writes then
           && n.phase == Awaiting(request) && n.session.Some?
           && (s.session.Some? ==>
                 n.session.value == s.session.value.(toHelper := s.session.value.toHelper + [request]))
           && (s.session.None? ==> n.session.value == Session(s.spawned, [request], [], Reading))
         else n.phase.Idle? && n.session.None?
  {
  }

  /** Bindings that cannot be read, and giving up on a reply, drop the session and return nothing. */
  lemma FailuresDropTheSession(s: State)
    ensures s.phase.Idle? ==>
      Enabled(s, BindingsFail) && Next(s, BindingsFail) == s.(session := None)
    ensures s.phase.Awaiting? ==>
      Enabled(s, GiveUp) && Next(s, GiveUp) == s.(session := None, phase := Idle)
  {
  }

  /** A helper that is computing answers under its request's generation, or dies of a reply it cannot write. */
  lemma ComputeExactly(s: State, result: Result<CounterSnapshot, string>, fits: bool)
    requires Enabled(s, HelperComputes(result, fits))
    ensures var live, n := s.session.value, DoCompute(s, result, fits);
            var body := if result.Ok? then SnapshotBody(result.value) else ErrorBody(result.error);
            var reply := Reply(PROTOCOL_VERSION, live.helper.request.generation, body);
      && n.phase == s.phase && n.returned == s.returned && n.generation == s.generation
      && n.session == Some(
           if ValidReply(reply) && fits then live.(toDaemon := live.toDaemon + [reply], helper := Reading)
           else live.(helper := Dead))
  {
  }

  /** Reading the reply: the labelled records are returned exactly for a snapshot of requested cgroups only. */
  lemma ReceiveExactly(steps: seq<Step>)
    requires ValidRun(INITIAL, steps) && Enabled(Execute(INITIAL, steps), Receive)
    ensures var s := Execute(INITIAL, steps);
            var n, request, body := Next(s, Receive), s.phase.request, s.session.value.toDaemon[0].body;
      && n.phase.Idle?
      && if body.SnapshotBody?
            && forall i :: 0 <= i < |body.snapshot.records| ==> Binds(request.bindings, body.snapshot.records[i].cgroup)
         then
           && |n.returned| == |s.returned| + 1 && n.returned[..|s.returned|] == s.returned
           && n.returned[|s.returned|].request == request && n.returned[|s.returned|].snapshot == body.snapshot
           && n.session == Some(s.session.value.(toDaemon := []))
         else n.returned == s.returned && n.session.None?
  {
    RunKeepsInv(INITIAL, steps);
    var s := Execute(INITIAL, steps);
    assert s.session.value.toDaemon[1..] == [];
    if s.session.value.toDaemon[0].body.SnapshotBody? {
      LabelledExactly(s.session.value.toDaemon[0].body.snapshot.records, s.phase.request.bindings);
    }
  }

  /** The four steps of a collect in which nothing fails. */
  function GoodCollect(bindings: seq<Binding>, snapshot: CounterSnapshot): seq<Step>
  {
    [Begin(bindings, true, true, true), HelperTakes(""), HelperComputes(Ok(snapshot), true), Receive]
  }

  /** From any idle state below the last generation, such a collect runs and returns the labelled counters. */
  lemma GoodCollectReturns(s: State, bindings: seq<Binding>, snapshot: CounterSnapshot)
    requires Inv(s) && s.phase.Idle? && s.generation < U64_MAX
    requires s.session.Some? ==> s.session.value.helper.Reading?
    requires ValidRequest(Request(PROTOCOL_VERSION, s.generation + 1, bindings)) && ValidSnapshot(snapshot)
    requires forall i :: 0 <= i < |snapshot.records| ==> Binds(bindings, snapshot.records[i].cgroup)
    ensures ValidRun(s, GoodCollect(bindings, snapshot))
    ensures var n := Execute(s, GoodCollect(bindings, snapshot));
      && n.phase.Idle? && n.session.Some? && Quiet(n.session.value) && |n.returned| == |s.returned| + 1
      && var r := n.returned[|s.returned|];
         && r.request == Request(PROTOCOL_VERSION, s.generation + 1, bindings) && r.snapshot == snapshot
         && Labels(snapshot.records, bindings, r.records)
  {
    var steps := GoodCollect(bindings, snapshot);
    var s1 := Next(s, steps[0]);
    var s2 := Next(s1, steps[1]);
    var s3 := Next(s2, steps[2]);
    LabelledExactly(snapshot.records, bindings);
    LabelledLabels(snapshot.records, bindings);
    var s4 := Next(s3, steps[3]);
    FourSteps(s, steps, s1, s2, s3, s4);
  }

  lemma FourSteps(s: State, steps: seq<Step>, s1: State, s2: State, s3: State, s4: State)
    requires |steps| == 4
    requires Enabled(s, steps[0]) && s1 == Next(s, steps[0])
    requires Enabled(s1, steps[1]) && s2 == Next(s1, steps[1])
    requires Enabled(s2, steps[2]) && s3 == Next(s2, steps[2])
    requires Enabled(s3, steps[3]) && s4 == Next(s3, steps[3])
    ensures ValidRun(s, steps) && Execute(s, steps) == s4
  {
    var t1, t2, t3, t4 := steps[1..], steps[2..], steps[3..], steps[4..];
    assert t1[1..] == t2 && t2[1..] == t3 && t3[1..] == t4 && t4 == [];
    assert t1[0] == steps[1] && t2[0] == steps[2] && t3[0] == steps[3];
    assert ValidRun(s4, t4) && Execute(s4, t4) == s4;
    assert ValidRun(s3, t3) && Execute(s3, t3) == s4;
    assert ValidRun(s2, t2) && Execute(s2, t2) == s4;
    assert ValidRun(s1, t1) && Execute(s1, t1) == s4;
  }

  // ----- what follows for every run

  /** Every returned list was computed from its own request in its own session, under that request's keys. */
  lemma ReturnsAreBacked(steps: seq<Step>, r: Returned)
    requires ValidRun(INITIAL, steps) && r in Execute(INITIAL, steps).returned
    ensures Computation(r.session, r.request, r.snapshot) in Execute(INITIAL, steps).computed
    ensures Labels(r.snapshot.records, r.request.bindings, r.records)
  {
    RunKeepsInv(INITIAL, steps);
  }

  /**
   Returned lists are well-formed: at most 4096 records, of distinct cgroups, none without a capture time, none
   from a helper that reports no support, and a healthy report always with its time.
   */
  lemma ReturnsAreWellFormed(steps: seq<Step>, r: Returned)
    requires ValidRun(INITIAL, steps) && r in Execute(INITIAL, steps).returned
    ensures |r.records| <= 4096 && (r.records != [] ==> r.snapshot.capturedAt.Some?)
    ensures r.snapshot.status.Unsupported? ==> r.records == [] && r.snapshot.capturedAt.None?
    ensures r.snapshot.status.Healthy? ==> r.snapshot.capturedAt.Some? && r.snapshot.reason.Attached?
    ensures forall i, j :: 0 <= i < j < |r.records| ==> r.records[i].cgroup != r.records[j].cgroup
    ensures forall i :: 0 <= i < |r.records| ==> r.records[i].cgroup != 0
  {
    RunKeepsInv(INITIAL, steps);
    ReturnsAreBacked(steps, r);
    assert ValidSnapshot(r.snapshot);
    forall i, j | 0 <= i < j < |r.records| ensures r.records[i].cgroup != r.records[j].cgroup {
      assert r.snapshot.records[i].cgroup != r.snapshot.records[j].cgroup;
    }
  }

  /** The step that returns does so for the newest generation, over the live session, and leaves that quiet. */
  lemma ReturnsAreCurrent(steps: seq<Step>)
    requires ValidRun(INITIAL, steps) && Enabled(Execute(INITIAL, steps), Receive)
    ensures var s := Execute(INITIAL, steps);
            var t := Next(s, Receive);
            |t.returned| > |s.returned| ==>
              && t.returned[|s.returned|].request.generation == s.generation
              && t.returned[|s.returned|].session == s.session.value.id
              && t.session.Some? && Quiet(t.session.value)
  {
    RunKeepsInv(INITIAL, steps);
    StepKeepsInv(Execute(INITIAL, steps), Receive);
  }

  /** Between collects a live session has no unread frame, no unanswered one and nothing being computed. */
  lemma IdleSessionIsQuiet(steps: seq<Step>)
    requires ValidRun(INITIAL, steps)
    ensures var s := Execute(INITIAL, steps); s.phase.Idle? && s.session.Some? ==> Quiet(s.session.value)
  {
    RunKeepsInv(INITIAL, steps);
  }

  /** No generation is returned twice, and later returns carry larger ones. */
  lemma GenerationsGrow(steps: seq<Step>, i: nat, j: nat)
    requires ValidRun(INITIAL, steps) && i < j < |Execute(INITIAL, steps).returned|
    ensures var s := Execute(INITIAL, steps);
            s.returned[i].request.generation < s.returned[j].request.generation <= s.generation
  {
    RunKeepsInv(INITIAL, steps);
  }

  /** A helper that follows the protocol never triggers the mismatch check nor answers generation zero. */
  lemma NoMismatchNoZeroReply(steps: seq<Step>)
    requires ValidRun(INITIAL, steps)
    ensures Execute(INITIAL, steps).mismatches == 0 && Execute(INITIAL, steps).zeroReplies == 0
  {
    RunKeepsInv(INITIAL, steps);
  }
}
