/**
 The event-driven usage worker: what it knows about its idle, logind and niri sources, what it
 publishes, and when a published Healthy state can support a Healthy summary.

 Answers of the outside world (a stream's poll, a drain, the logind probe, the clock, the tracker)
 are inputs. Reconnect and checkpoint timers are reduced to "due now" inputs.
 */
module UsageWorker {
  import opened Wrappers

  datatype Availability = Healthy | Degraded | Unsupported | Unreachable

  /** The part of `WorkerState` that decides what may be published. */
  datatype Worker = Worker(
    idle: bool,                 // `wayland_idle` is connected
    inputIdle: bool,
    logind: bool,               // `logind_events` is connected
    niri: bool,                 // `niri` is connected
    seen: bool,                 // `niri_snapshot_seen`
    available: bool,            // `session_available`
    checkpoint: Option<int>)    // `last_checkpoint_unix_ms`

  /** The part of `UsageRuntimeState` a summary reads. */
  datatype Runtime = Runtime(status: Availability, niri: bool, session: bool, checkpoint: Option<int>)

  ghost predicate WorkerInv(w: Worker)
  {
    && (w.available ==> w.idle && w.logind && w.checkpoint.Some?)
    && (w.seen ==> w.niri)
  }

  ghost predicate RuntimeInv(r: Runtime)
  {
    r.status.Healthy? ==> r.niri && r.session && r.checkpoint.Some?
  }

  /** What `publish_worker_state` puts in the shared state. */
  function Publication(w: Worker): Runtime
  {
    Runtime(if w.seen && w.available && w.idle then Healthy else Degraded, w.seen, w.available, w.checkpoint)
  }

  /** What `publish_unavailable` makes of the shared state. */
  function Withdrawn(r: Runtime, status: Availability): Runtime
  {
    Runtime(status, false, false, r.checkpoint)
  }

  /** Result of `drain_logind_events`: whether an edge was seen, or that the stream broke. */
  datatype Drain = Drained(changed: bool) | StreamLost

  /** Clock and tracker answers for one session edge. */
  datatype EdgeInput = EdgeInput(clock: Option<int>, trackerOk: bool)

  datatype RefreshInput = RefreshInput(
    first: Drain, firstEdge: EdgeInput, probeOk: bool, second: Drain, secondEdge: EdgeInput,
    clock: Option<int>, trackerOk: bool)

  /** A logind or idle edge: the session is suspended at the edge's time; a failing tracker suspends nothing. */
  function Suspended(w: Worker, edge: EdgeInput): Worker
  {
    if edge.clock.None? then w.(available := false)
    else if !edge.trackerOk then w
    else w.(available := false, checkpoint := edge.clock)
  }

  /** The stages a refresh must pass before it enables the session. */
  predicate ReachesProbe(w: Worker, x: RefreshInput) { w.idle && w.logind && x.first.Drained? }
  predicate ReachesClock(w: Worker, x: RefreshInput) { ReachesProbe(w, x) && x.probeOk && x.second == Drained(false) }
  predicate Enables(w: Worker, x: RefreshInput) { ReachesClock(w, x) && x.clock.Some? && x.trackerOk }

  /** The worker after `refresh_session_with_focus`. */
  function Refreshed(w: Worker, x: RefreshInput): Worker
  {
    var paused := if x.first == Drained(true) then Suspended(w, x.firstEdge) else w;
    if !w.idle || !w.logind then w.(available := false)
    else if x.first.StreamLost? then w.(logind := false, available := false)
    else if !x.probeOk then paused.(available := false)
    else if x.second.StreamLost? then paused.(logind := false, available := false)
    else if x.second.changed then Suspended(paused, x.secondEdge)
    else if Enables(w, x) then paused.(available := true, checkpoint := x.clock)
    else paused
  }

  lemma SuspendKeeps(w: Worker, edge: EdgeInput)
    requires WorkerInv(w)
    ensures var r := Suspended(w, edge);
            WorkerInv(r) && r.idle == w.idle && r.logind == w.logind && r.niri == w.niri && r.seen == w.seen
  {
  }

  lemma RefreshKeeps(w: Worker, x: RefreshInput)
    requires WorkerInv(w)
    ensures WorkerInv(Refreshed(w, x))
    ensures Refreshed(w, x).niri == w.niri && Refreshed(w, x).seen == w.seen
  {
    SuspendKeeps(w, x.firstEdge);
    var paused := if x.first == Drained(true) then Suspended(w, x.firstEdge) else w;
    SuspendKeeps(paused, x.secondEdge);
  }

  /** The tracker did not take the edge: only then does an edge leave the session as it was. */
  predicate EdgeLost(edge: EdgeInput)
  {
    edge.clock.Some? && !edge.trackerOk
  }

  predicate EdgeTaken(edge: EdgeInput)
  {
    edge.clock.Some? && edge.trackerOk
  }

  /** An edge makes the session unavailable, at the edge's time if the clock gives one, unless the tracker failed. */
  lemma SuspendExactly(w: Worker, edge: EdgeInput)
    ensures var r := Suspended(w, edge);
      && (r.available <==> w.available && EdgeLost(edge))
      && r.checkpoint == (if EdgeTaken(edge) then edge.clock else w.checkpoint)
      && r.(available := w.available, checkpoint := w.checkpoint) == w
  {
  }

  lemma SuspendTime(w: Worker, edge: EdgeInput)
    ensures Suspended(w, edge).checkpoint == if EdgeTaken(edge) then edge.clock else w.checkpoint
  {
  }

  lemma SuspendFrame(w: Worker, edge: EdgeInput)
    ensures var r := Suspended(w, edge);
      && r.idle == w.idle && r.inputIdle == w.inputIdle && r.logind == w.logind && r.niri == w.niri && r.seen == w.seen
  {
  }

  /** The session was available before and its availability survived the edge, if one was seen. */
  predicate Survives(available: bool, drain: Drain, edge: EdgeInput)
  {
    available && (drain == Drained(true) ==> EdgeLost(edge))
  }

  /**
   Exactly when the session is available after a refresh: both streams are there and stay, the probe answers,
   and either clock and tracker enable it with no edge after the probe, or it was available and every edge
   seen, and the enabling itself, failed in the clock or the tracker.
   */
  lemma RefreshAvailableExactly(w: Worker, x: RefreshInput)
    ensures Refreshed(w, x).available <==>
      && w.idle && w.logind && x.first.Drained? && x.probeOk && x.second.Drained?
      && if x.second.changed then Survives(Survives(w.available, x.first, x.firstEdge), x.second, x.secondEdge)
         else (x.clock.Some? && x.trackerOk) || Survives(w.available, x.first, x.firstEdge)
  {
  }

  /** The last time a refresh recorded: the enabling one, else that of the last edge clock and tracker took. */
  lemma RefreshCheckpointExactly(w: Worker, x: RefreshInput)
    ensures var r := Refreshed(w, x);
      r.checkpoint ==
        if Enables(w, x) then x.clock
        else if ReachesProbe(w, x) && x.probeOk && x.second == Drained(true) && EdgeTaken(x.secondEdge)
        then x.secondEdge.clock
        else if w.idle && w.logind && x.first == Drained(true) && EdgeTaken(x.firstEdge) then x.firstEdge.clock
        else w.checkpoint
  {
    SuspendTime(w, x.firstEdge);
    var paused := if x.first == Drained(true) then Suspended(w, x.firstEdge) else w;
    SuspendTime(paused, x.secondEdge);
  }

  /** A refresh drops the logind stream exactly when a drain found it lost, and touches no other stream. */
  lemma RefreshStreamsExactly(w: Worker, x: RefreshInput)
    ensures var r := Refreshed(w, x);
      && r.idle == w.idle && r.inputIdle == w.inputIdle && r.niri == w.niri && r.seen == w.seen
      && r.logind == (w.logind && !(w.idle && (x.first.StreamLost? || (x.probeOk && x.second.StreamLost?))))
  {
    SuspendFrame(w, x.firstEdge);
    var paused := if x.first == Drained(true) then Suspended(w, x.firstEdge) else w;
    SuspendFrame(paused, x.secondEdge);
  }

  /** The refresh ends in a tracker failure, which is published as unreachable. */
  predicate RefreshWithdraws(w: Worker, x: RefreshInput)
  {
    && ReachesProbe(w, x) && x.probeOk && x.second.Drained?
    && (if x.second.changed then EdgeLost(x.secondEdge) else x.clock.Some? && !x.trackerOk)
  }

  datatype NiriUpdate = FocusChanged(refresh: RefreshInput) | StateChanged | Quiet | NiriLost

  /** What an idle poll answers: no stream event, a change, or a broken stream. */
  datatype IdlePoll = NoChange | Changed(idle: bool, edge: EdgeInput, refresh: RefreshInput) | IdleLost

  datatype LogindPoll = LogindPoll(drain: Drain, edge: EdgeInput, refresh: RefreshInput)

  /** Inputs of `checkpoint_current_usage`: polls, the updates waiting on the niri stream, a last refresh. */
  datatype CheckpointInput = CheckpointInput(
    idle: IdlePoll, logind: LogindPoll, updates: seq<NiriUpdate>, refresh: RefreshInput)

  datatype Attempt = NotDue | Fails | Connects(inputIdle: bool, refresh: RefreshInput)

  /** Inputs of one turn of the worker loop. */
  datatype Turn = Turn(
    command: Option<CheckpointInput>,
    idleAttempt: Attempt, idlePoll: IdlePoll,
    logindAttempt: Attempt, logindPoll: LogindPoll,
    niriAttempt: Attempt,
    checkpointDue: Option<RefreshInput>,
    retentionFails: bool,
    update: NiriUpdate,
    lateCommand: Option<CheckpointInput>)

  // ----- the worker after each part of a turn

  function PolledIdle(w: Worker, poll: IdlePoll): Worker
  {
    if !w.idle then w else
      match poll
      case NoChange => w
      case Changed(idle, edge, refresh) => Refreshed(Suspended(w, edge).(inputIdle := idle), refresh)
      case IdleLost => w.(idle := false, inputIdle := false, available := false)
  }

  /** An absent logind stream drains as a lost one. */
  function PolledLogind(w: Worker, poll: LogindPoll): Worker
  {
    if !w.logind || poll.drain.StreamLost? then w.(logind := false, available := false)
    else if poll.drain.changed then Refreshed(Suspended(w, poll.edge), poll.refresh)
    else w
  }

  function TriedIdle(w: Worker, attempt: Attempt): Worker
  {
    if w.idle || attempt.NotDue? then w
    else if attempt.Fails? then w.(available := false)
    else Refreshed(w.(idle := true, inputIdle := attempt.inputIdle), attempt.refresh)
  }

  function TriedLogind(w: Worker, attempt: Attempt): Worker
  {
    if w.logind || attempt.NotDue? then w
    else if attempt.Fails? then w.(available := false)
    else Refreshed(w.(logind := true, available := false), attempt.refresh)
  }

  function TriedNiri(w: Worker, attempt: Attempt): Worker
  {
    if w.niri || !attempt.Connects? then w else w.(niri := true, seen := false)
  }

  function Updated(w: Worker, update: NiriUpdate): Worker
  {
    if !w.niri then w else
      match update
      case FocusChanged(refresh) => Refreshed(w.(seen := true), refresh)
      case StateChanged => w
      case Quiet => w
      case NiriLost => w.(niri := false, seen := false)
  }

  /** The niri updates waiting at a checkpoint, taken up to the first quiet poll or the loss of the stream. */
  function DrainedNiri(w: Worker, updates: seq<NiriUpdate>): Worker
    decreases |updates|
  {
    if !w.niri || updates == [] || updates[0].Quiet? then w else DrainedNiri(Updated(w, updates[0]), updates[1..])
  }

  /** `checkpoint_current_usage`: a niri stream lost during the drain ends it before the last refresh. */
  function Checkpointed(w: Worker, x: CheckpointInput): Worker
  {
    var polled := PolledLogind(PolledIdle(w, x.idle), x.logind);
    var drained := DrainedNiri(polled, x.updates);
    if polled.niri && !drained.niri then drained else Refreshed(drained, x.refresh)
  }

  /** A turn up to its niri poll. */
  function BeforeUpdate(w: Worker, t: Turn): Worker
  {
    var w1 := if t.command.Some? then Checkpointed(w, t.command.value) else w;
    var w2 := PolledIdle(TriedIdle(w1, t.idleAttempt), t.idlePoll);
    var w3 := PolledLogind(TriedLogind(w2, t.logindAttempt), t.logindPoll);
    var w4 := TriedNiri(w3, t.niriAttempt);
    if t.checkpointDue.Some? then Refreshed(w4, t.checkpointDue.value) else w4
  }

  function TurnTaken(w: Worker, t: Turn): Worker
  {
    var polled := BeforeUpdate(w, t);
    if polled.niri then Updated(polled, t.update)
    else if t.lateCommand.Some? then Checkpointed(polled, t.lateCommand.value)
    else polled
  }

  function After(w: Worker, turns: seq<Turn>): Worker
    decreases |turns|
  {
    if turns == [] then w else After(TurnTaken(w, turns[0]), turns[1..])
  }

  class UsageTrackerWorker {
    var worker: Worker
    var runtime: Runtime

    /** Outside its methods, what is published is what the worker is, or that it is unreachable. */
    ghost predicate Valid() reads this
    {
      WorkerInv(worker) && (runtime == Publication(worker) || runtime == Withdrawn(runtime, Unreachable))
    }

    /** The worker before its first turn: nothing connected, nothing known, state published as waiting. */
    constructor ()
      ensures Valid()
      ensures worker == Worker(false, false, false, false, false, false, None)
      ensures runtime == Publication(worker)
    {
      worker := Worker(false, false, false, false, false, false, None);
      runtime := Runtime(Degraded, false, false, None);
    }

    /** Readers see the shared state at any moment: no publication is ever Healthy without its facts. */
    method Publish()
      requires WorkerInv(worker)
      modifies this`runtime
      ensures runtime == Publication(worker) && RuntimeInv(runtime)
    {
      var healthy := worker.seen && worker.available && worker.idle;
      runtime := Runtime(if healthy then Healthy else Degraded, worker.seen, worker.available, worker.checkpoint);
    }

    method PublishUnavailable()
      modifies this`runtime
      ensures runtime == Withdrawn(old(runtime), Unreachable) && RuntimeInv(runtime)
    {
      runtime := Runtime(Unreachable, false, false, runtime.checkpoint);
    }

    method PauseForLogindEdge(edge: EdgeInput)
      requires WorkerInv(worker)
      modifies this
      ensures Valid()
      ensures worker == Suspended(old(worker), edge)
      ensures runtime == if edge.clock.Some? && !edge.trackerOk then Withdrawn(old(runtime), Unreachable)
                         else Publication(worker)
    {
      if edge.clock.None? {
        worker := worker.(available := false);
        Publish();
        return;
      }
      if !edge.trackerOk {
        PublishUnavailable();
        return;
      }
      worker := worker.(available := false, checkpoint := edge.clock);
      Publish();
    }

    /** Unlike the logind edge, an idle edge that goes well publishes nothing itself. */
    method PauseForIdleEdge(edge: EdgeInput)
      requires WorkerInv(worker)
      modifies this
      ensures WorkerInv(worker)
      ensures worker == Suspended(old(worker), edge)
      ensures runtime == if edge.clock.None? then Publication(worker)
                         else if !edge.trackerOk then Withdrawn(old(runtime), Unreachable)
                         else old(runtime)
    {
      if edge.clock.None? {
        worker := worker.(available := false);
        Publish();
        return;
      }
      if !edge.trackerOk {
        PublishUnavailable();
        return;
      }
      worker := worker.(available := false, checkpoint := edge.clock);
    }

    method DisconnectLogind()
      requires WorkerInv(worker)
      modifies this
      ensures Valid()
      ensures worker == old(worker).(logind := false, available := false) && runtime == Publication(worker)
    {
      worker := worker.(logind := false, available := false);
      Publish();
    }

    method DisconnectIdle()
      requires Valid()
      modifies this
      ensures Valid()
      ensures worker == old(worker).(idle := false, inputIdle := false, available := false)
      ensures runtime == Publication(worker)
    {
      worker := worker.(idle := false, inputIdle := false, available := false);
      Publish();
    }

    /** `refresh_session_with_focus` */
    method Refresh(x: RefreshInput)
      requires WorkerInv(worker)
      modifies this
      ensures Valid()
      ensures worker == Refreshed(old(worker), x)
      ensures if RefreshWithdraws(old(worker), x) then runtime == Withdrawn(runtime, Unreachable)
              else runtime == Publication(worker)
    {
      if !worker.idle {
        worker := worker.(available := false);
        Publish();
        return;
      }
      if !worker.logind {
        worker := worker.(available := false);
        Publish();
        return;
      }
      if x.first.StreamLost? {
        DisconnectLogind();
        return;
      }
      if x.first.changed {
        PauseForLogindEdge(x.firstEdge);
      }
      if !x.probeOk {
        worker := worker.(available := false);
        Publish();
        return;
      }
      if x.second.StreamLost? {
        DisconnectLogind();
        return;
      }
      if x.second.changed {
        PauseForLogindEdge(x.secondEdge);
        return;
      }
      if x.clock.None? {
        Publish();
        return;
      }
      if !x.trackerOk {
        PublishUnavailable();
        return;
      }
      worker := worker.(available := true, checkpoint := x.clock);
      Publish();
    }

    method PollIdle(poll: IdlePoll)
      requires Valid()
      modifies this
      ensures Valid() && worker == PolledIdle(old(worker), poll)
      ensures if !old(worker).idle || poll.NoChange? then runtime == old(runtime)
              else if poll.IdleLost? || !RefreshWithdraws(Suspended(old(worker), poll.edge), poll.refresh)
              then runtime == Publication(worker) else runtime == Withdrawn(runtime, Unreachable)
    {
      if !worker.idle {
        return;
      }
      match poll
      case NoChange =>
      case Changed(idle, edge, refresh) =>
        PauseForIdleEdge(edge);
        worker := worker.(inputIdle := idle);
        Refresh(refresh);
      case IdleLost =>
        DisconnectIdle();
    }

    method PollLogind(poll: LogindPoll)
      requires Valid()
      modifies this
      ensures Valid() && worker == PolledLogind(old(worker), poll)
      ensures if !old(worker).logind || poll.drain.StreamLost? then runtime == Publication(worker)
              else if !poll.drain.changed then runtime == old(runtime)
              else if RefreshWithdraws(Suspended(old(worker), poll.edge), poll.refresh)
              then runtime == Withdrawn(runtime, Unreachable) else runtime == Publication(worker)
    {
      if !worker.logind || poll.drain.StreamLost? {
        DisconnectLogind();
      } else if poll.drain.changed {
        PauseForLogindEdge(poll.edge);
        Refresh(poll.refresh);
      }
    }

    /** The arms of a niri poll; the stream is connected. */
    method TakeUpdate(update: NiriUpdate)
      requires Valid() && worker.niri
      modifies this
      ensures Valid() && worker == Updated(old(worker), update)
      ensures match update
              case FocusChanged(refresh) =>
                if RefreshWithdraws(old(worker), refresh) then runtime == Withdrawn(runtime, Unreachable)
                else runtime == Publication(worker)
              case NiriLost => runtime == Publication(worker)
              case _ => runtime == old(runtime)
    {
      match update
      case FocusChanged(refresh) =>
        worker := worker.(seen := true);
        Refresh(refresh);
      case StateChanged =>
      case Quiet =>
      case NiriLost =>
        worker := worker.(niri := false, seen := false);
        Publish();
    }

    /** `checkpoint_current_usage` */
    method CheckpointNow(x: CheckpointInput)
      requires Valid()
      modifies this
      ensures Valid() && worker == Checkpointed(old(worker), x)
    {
      PollIdle(x.idle);
      PollLogind(x.logind);
      ghost var polled := worker;
      var i := 0;
      while worker.niri && i < |x.updates| && !x.updates[i].Quiet?
        invariant 0 <= i <= |x.updates| && Valid() && worker.niri == polled.niri
        invariant DrainedNiri(polled, x.updates) == DrainedNiri(worker, x.updates[i..])
        decreases |x.updates| - i
      {
        TakeUpdate(x.updates[i]);
        i := i + 1;
        if !worker.niri {
          return;
        }
      }
      Refresh(x.refresh);
    }

    method ConnectIdle(attempt: Attempt)
      requires Valid()
      modifies this
      ensures Valid() && worker == TriedIdle(old(worker), attempt)
    {
      if worker.idle {
        return;
      }
      match attempt
      case NotDue =>
      case Fails =>
        worker := worker.(available := false);
        Publish();
      case Connects(inputIdle, refresh) =>
        worker := worker.(idle := true, inputIdle := inputIdle);
        Refresh(refresh);
    }

    method ConnectLogind(attempt: Attempt)
      requires Valid()
      modifies this
      ensures Valid() && worker == TriedLogind(old(worker), attempt)
    {
      if worker.logind {
        return;
      }
      match attempt
      case NotDue =>
      case Fails =>
        worker := worker.(available := false);
        Publish();
      case Connects(_, refresh) =>
        worker := worker.(logind := true, available := false);
        Refresh(refresh);
    }

    method ConnectNiri(attempt: Attempt)
      requires Valid()
      modifies this
      ensures Valid() && worker == TriedNiri(old(worker), attempt)
    {
      if worker.niri {
        return;
      }
      match attempt
      case NotDue =>
      case Fails => Publish();
      case Connects(_, _) =>
        worker := worker.(niri := true, seen := false);
        Publish();
    }

    /** One turn of the loop in `usage_worker`. */
    method TakeTurn(t: Turn)
      requires Valid()
      modifies this
      ensures Valid() && worker == TurnTaken(old(worker), t)
      ensures GoodTurn(old(worker), t) ==> runtime == Publication(worker)
    {
      if t.command.Some? {
        CheckpointNow(t.command.value);
      }
      ConnectIdle(t.idleAttempt);
      PollIdle(t.idlePoll);
      ConnectLogind(t.logindAttempt);
      PollLogind(t.logindPoll);
      ConnectNiri(t.niriAttempt);
      if t.checkpointDue.Some? {
        Refresh(t.checkpointDue.value);
      }
      if t.retentionFails {
        Publish();
      }
      if GoodTurn(old(worker), t) {
        GoodTurnReaches(old(worker), t);
      }
      if worker.niri {
        TakeUpdate(t.update);
      } else if t.lateCommand.Some? {
        CheckpointNow(t.lateCommand.value);
      }
    }

    /** Over every sequence of turns, what is published stays backed by the worker's facts. */
    method Run(turns: seq<Turn>)
      requires Valid()
      modifies this
      ensures Valid() && worker == After(old(worker), turns)
      ensures runtime.status.Healthy? ==>
                && runtime.niri && runtime.session && runtime.checkpoint.Some?
                && worker.niri && worker.idle && worker.logind
    {
      var i := 0;
      while i < |turns|
        invariant 0 <= i <= |turns| && Valid()
        invariant After(old(worker), turns) == After(worker, turns[i..])
      {
        TakeTurn(turns[i]);
        i := i + 1;
      }
    }
  }

  // ----- what each event does

  /** Healthy exactly with a niri snapshot, an available session and an idle stream; Degraded otherwise. */
  lemma PublicationExactly(w: Worker)
    ensures var p := Publication(w);
      && (p.status.Healthy? <==> w.seen && w.available && w.idle) && (!p.status.Healthy? ==> p.status.Degraded?)
      && p.niri == w.seen && p.session == w.available && p.checkpoint == w.checkpoint
  {
  }

  /** A lost idle stream ends the session; a change records the new idleness and leaves only what a refresh gives. */
  lemma PollIdleExactly(w: Worker, poll: IdlePoll)
    requires w.idle
    ensures var r := PolledIdle(w, poll);
      match poll
      case NoChange => r == w
      case IdleLost => r == w.(idle := false, inputIdle := false, available := false)
      case Changed(idle, edge, refresh) =>
        && r.idle && r.inputIdle == idle && r.niri == w.niri && r.seen == w.seen
        && (!EdgeLost(edge) ==> (r.available <==> Enables(w, refresh)))
  {
    if poll.Changed? {
      var s := Suspended(w, poll.edge).(inputIdle := poll.idle);
      SuspendExactly(w, poll.edge);
      RefreshAvailableExactly(s, poll.refresh);
      RefreshStreamsExactly(s, poll.refresh);
    }
  }

  /** A lost or absent logind stream ends the session; an edge leaves only what a refresh gives. */
  lemma PollLogindExactly(w: Worker, poll: LogindPoll)
    ensures var r := PolledLogind(w, poll);
      && r.idle == w.idle && r.inputIdle == w.inputIdle && r.niri == w.niri && r.seen == w.seen
      && if !w.logind || poll.drain.StreamLost? then !r.logind && !r.available && r.checkpoint == w.checkpoint
         else if !poll.drain.changed then r == w
         else !EdgeLost(poll.edge) ==> (r.available <==> Enables(w, poll.refresh))
  {
    if w.logind && poll.drain == Drained(true) {
      SuspendExactly(w, poll.edge);
      RefreshAvailableExactly(Suspended(w, poll.edge), poll.refresh);
      RefreshStreamsExactly(Suspended(w, poll.edge), poll.refresh);
    }
  }

  /** A connect that succeeds is connected and refreshed; one that fails leaves the session unavailable. */
  lemma TriesExactly(w: Worker, attempt: Attempt)
    ensures var r := TriedIdle(w, attempt);
      if w.idle || attempt.NotDue? then r == w
      else if attempt.Fails? then !r.idle && !r.available
      else r.idle && r.inputIdle == attempt.inputIdle
           && (Enables(w.(idle := true), attempt.refresh) ==> r.available && r.checkpoint == attempt.refresh.clock)
    ensures var r := TriedLogind(w, attempt);
      if w.logind || attempt.NotDue? then r == w
      else if attempt.Fails? then !r.logind && !r.available
      else r.available <==> Enables(w.(logind := true), attempt.refresh)
    ensures var r := TriedNiri(w, attempt);
      if w.niri || !attempt.Connects? then r == w else r == w.(niri := true, seen := false)
  {
    if attempt.Connects? {
      RefreshAvailableExactly(w.(idle := true, inputIdle := attempt.inputIdle), attempt.refresh);
      RefreshAvailableExactly(w.(logind := true, available := false), attempt.refresh);
      RefreshStreamsExactly(w.(idle := true, inputIdle := attempt.inputIdle), attempt.refresh);
    }
  }

  /** A focus change means a snapshot was seen; a lost niri stream means none is. */
  lemma UpdateExactly(w: Worker, update: NiriUpdate)
    requires w.niri
    ensures var r := Updated(w, update);
      match update
      case FocusChanged(refresh) =>
        r.niri && r.seen && (Enables(w, refresh) ==> r.available && r.checkpoint == refresh.clock)
      case NiriLost => r == w.(niri := false, seen := false)
      case _ => r == w
  {
    if update.FocusChanged? {
      RefreshAvailableExactly(w.(seen := true), update.refresh);
      RefreshStreamsExactly(w.(seen := true), update.refresh);
    }
  }

  predicate IsFocus(u: NiriUpdate)
  {
    u.FocusChanged?
  }

  /** The drain at a checkpoint takes every waiting update: a focus among them means a snapshot was seen. */
  lemma {:induction false} DrainTakesAll(w: Worker, updates: seq<NiriUpdate>)
    requires w.niri && forall i :: 0 <= i < |updates| ==> !updates[i].Quiet? && !updates[i].NiriLost?
    ensures var r := DrainedNiri(w, updates);
      r.niri && r.idle == w.idle
      && (r.seen <==> w.seen || exists i :: 0 <= i < |updates| && IsFocus(updates[i]))
    decreases |updates|
  {
    if updates == [] {
    } else {
      var next, tail := Updated(w, updates[0]), updates[1..];
      if updates[0].FocusChanged? { RefreshStreamsExactly(w.(seen := true), updates[0].refresh); }
      assert forall i :: 0 <= i < |tail| ==> tail[i] == updates[i + 1];
      DrainTakesAll(next, tail);
      if DrainedNiri(next, tail).seen && !w.seen && !IsFocus(updates[0]) {
        var i :| 0 <= i < |tail| && IsFocus(tail[i]);
        assert IsFocus(updates[i + 1]);
      }
      if exists i :: 0 <= i < |updates| && IsFocus(updates[i]) {
        var i :| 0 <= i < |updates| && IsFocus(updates[i]);
        assert i > 0 ==> IsFocus(tail[i - 1]);
      }
    }
  }

  /** A quiet checkpoint in which everything answers records its time; a niri stream lost in it is gone. */
  lemma CheckpointExactly(w: Worker, x: CheckpointInput)
    requires w.idle && w.logind && x.idle.NoChange? && x.logind.drain == Drained(false)
    ensures x.updates == [] && Good(x.refresh) ==>
              Checkpointed(w, x) == w.(available := true, checkpoint := x.refresh.clock)
    ensures w.niri && |x.updates| > 0 && x.updates[0].NiriLost? ==>
              Checkpointed(w, x) == w.(niri := false, seen := false)
  {
    if w.niri && |x.updates| > 0 && x.updates[0].NiriLost? {
      assert DrainedNiri(w, x.updates) == DrainedNiri(w.(niri := false, seen := false), x.updates[1..]);
    }
  }

  /** Everything a refresh asks answers. */
  predicate Good(x: RefreshInput)
  {
    x.first == Drained(false) && x.probeOk && x.second == Drained(false) && x.clock.Some? && x.trackerOk
  }

  predicate GoodAttempt(connected: bool, attempt: Attempt)
  {
    connected || (attempt.Connects? && Good(attempt.refresh))
  }

  /** A turn in which every missing stream connects, none breaks, and the focus changes. */
  predicate GoodTurn(w: Worker, t: Turn)
  {
    && t.command.None? && (t.checkpointDue.Some? ==> Good(t.checkpointDue.value))
    && GoodAttempt(w.idle, t.idleAttempt) && t.idlePoll.NoChange?
    && GoodAttempt(w.logind, t.logindAttempt) && t.logindPoll.drain == Drained(false)
    && GoodAttempt(w.niri, t.niriAttempt)
    && t.update.FocusChanged? && Good(t.update.refresh)
  }

  lemma GoodTurnReaches(w: Worker, t: Turn)
    requires GoodTurn(w, t)
    ensures var r := BeforeUpdate(w, t); r.idle && r.logind && r.niri
  {
    if t.idleAttempt.Connects? {
      RefreshStreamsExactly(w.(idle := true, inputIdle := t.idleAttempt.inputIdle), t.idleAttempt.refresh);
    }
    var w2 := PolledIdle(TriedIdle(w, t.idleAttempt), t.idlePoll);
    assert w2.idle && (w.logind ==> w2.logind) && w2.niri == w.niri;
    if t.logindAttempt.Connects? {
      RefreshStreamsExactly(w2.(logind := true, available := false), t.logindAttempt.refresh);
    }
    var w3 := PolledLogind(TriedLogind(w2, t.logindAttempt), t.logindPoll);
    assert w3.idle && w3.logind && w3.niri == w.niri;
    var w4 := TriedNiri(w3, t.niriAttempt);
    if t.checkpointDue.Some? { RefreshStreamsExactly(w4, t.checkpointDue.value); }
  }

  /** From any state, one good turn makes the worker Healthy, with the checkpoint of its refresh. */
  lemma GoodTurnIsHealthy(w: Worker, t: Turn)
    requires GoodTurn(w, t)
    ensures var p := Publication(TurnTaken(w, t)); p == Runtime(Healthy, true, true, t.update.refresh.clock)
  {
    GoodTurnReaches(w, t);
    UpdateExactly(BeforeUpdate(w, t), t.update);
    RefreshStreamsExactly(BeforeUpdate(w, t).(seen := true), t.update.refresh);
  }

  /** A turn whose polls bring nothing, on a worker with all its streams. */
  predicate QuietTurn(w: Worker, t: Turn)
  {
    && w.idle && w.logind && w.niri
    && t.idlePoll.NoChange? && t.logindPoll.drain == Drained(false) && (t.update.Quiet? || t.update.StateChanged?)
  }

  /** A checkpoint command that finds everything quiet and answering. */
  predicate GoodCheckpoint(x: CheckpointInput)
  {
    x.idle.NoChange? && x.logind.drain == Drained(false) && x.updates == [] && Good(x.refresh)
  }

  /** A quiet turn changes nothing but what its command and its due checkpoint record, in that order. */
  lemma QuietTurnExactly(w: Worker, t: Turn)
    requires QuietTurn(w, t)
    requires t.command.Some? ==> GoodCheckpoint(t.command.value)
    requires t.checkpointDue.Some? ==> Good(t.checkpointDue.value)
    ensures TurnTaken(w, t) ==
      if t.checkpointDue.Some? then w.(available := true, checkpoint := t.checkpointDue.value.clock)
      else if t.command.Some? then w.(available := true, checkpoint := t.command.value.refresh.clock)
      else w
  {
    if t.command.Some? { CheckpointExactly(w, t.command.value); }
  }

  /** A stream that breaks in an otherwise quiet turn is gone at its end, and with it the session or the snapshot. */
  lemma BreaksShow(w: Worker, t: Turn)
    requires w.idle && w.logind && w.niri && t.command.None? && t.checkpointDue.None?
    ensures t.idlePoll.IdleLost? && t.logindPoll.drain == Drained(false) && t.update.Quiet? ==>
              TurnTaken(w, t) == w.(idle := false, inputIdle := false, available := false)
    ensures t.idlePoll.NoChange? && t.logindPoll.drain.StreamLost? && t.update.Quiet? ==>
              TurnTaken(w, t) == w.(logind := false, available := false)
    ensures t.idlePoll.NoChange? && t.logindPoll.drain == Drained(false) && t.update.NiriLost? ==>
              TurnTaken(w, t) == w.(niri := false, seen := false)
  {
  }

  /** Without niri, a turn waits for a command instead and takes it. */
  lemma LateCommandIsTaken(w: Worker, t: Turn)
    requires w.idle && w.logind && !w.niri && !t.niriAttempt.Connects? && t.command.None? && t.checkpointDue.None?
    requires t.idlePoll.NoChange? && t.logindPoll.drain == Drained(false)
    requires t.lateCommand.Some? && GoodCheckpoint(t.lateCommand.value)
    ensures TurnTaken(w, t) == w.(available := true, checkpoint := t.lateCommand.value.refresh.clock)
  {
    CheckpointExactly(w, t.lateCommand.value);
  }

  /** A stream that is lost in a turn, and not replaced in it, is not Healthy at its end. */
  lemma LostStreamIsNotHealthy(w: Worker, t: Turn)
    requires t.lateCommand.None?
    requires var v := BeforeUpdate(w, t); !v.idle || !v.logind || (v.niri && t.update.NiriLost?) || !v.niri
    requires WorkerInv(w)
    ensures !Publication(TurnTaken(w, t)).status.Healthy?
  {
    var v := BeforeUpdate(w, t);
    TurnKeeps(w, t);
    BeforeUpdateKeeps(w, t);
    if v.niri && t.update.FocusChanged? {
      RefreshStreamsExactly(v.(seen := true), t.update.refresh);
      RefreshAvailableExactly(v.(seen := true), t.update.refresh);
    }
  }

  // ----- every run

  lemma PollsKeep(w: Worker, idlePoll: IdlePoll, logindPoll: LogindPoll)
    requires WorkerInv(w)
    ensures WorkerInv(PolledIdle(w, idlePoll)) && WorkerInv(PolledLogind(w, logindPoll))
  {
    if idlePoll.Changed? {
      RefreshKeeps(Suspended(w, idlePoll.edge).(inputIdle := idlePoll.idle), idlePoll.refresh);
    }
    RefreshKeeps(Suspended(w, logindPoll.edge), logindPoll.refresh);
  }

  lemma TriesKeep(w: Worker, attempt: Attempt)
    requires WorkerInv(w)
    ensures WorkerInv(TriedIdle(w, attempt)) && WorkerInv(TriedLogind(w, attempt)) && WorkerInv(TriedNiri(w, attempt))
  {
    if attempt.Connects? {
      RefreshKeeps(w.(idle := true, inputIdle := attempt.inputIdle), attempt.refresh);
      RefreshKeeps(w.(logind := true, available := false), attempt.refresh);
    }
  }

  lemma UpdateKeeps(w: Worker, update: NiriUpdate)
    requires WorkerInv(w)
    ensures WorkerInv(Updated(w, update))
  {
    if w.niri && update.FocusChanged? {
      RefreshKeeps(w.(seen := true), update.refresh);
    }
  }

  lemma {:induction false} NiriDrainKeeps(w: Worker, updates: seq<NiriUpdate>)
    requires WorkerInv(w)
    ensures WorkerInv(DrainedNiri(w, updates))
    decreases |updates|
  {
    if w.niri && updates != [] && !updates[0].Quiet? {
      UpdateKeeps(w, updates[0]);
      NiriDrainKeeps(Updated(w, updates[0]), updates[1..]);
    }
  }

  lemma CheckpointKeeps(w: Worker, x: CheckpointInput)
    requires WorkerInv(w)
    ensures WorkerInv(Checkpointed(w, x))
  {
    PollsKeep(w, x.idle, x.logind);
    PollsKeep(PolledIdle(w, x.idle), x.idle, x.logind);
    var polled := PolledLogind(PolledIdle(w, x.idle), x.logind);
    NiriDrainKeeps(polled, x.updates);
    RefreshKeeps(DrainedNiri(polled, x.updates), x.refresh);
  }

  lemma BeforeUpdateKeeps(w: Worker, t: Turn)
    requires WorkerInv(w)
    ensures WorkerInv(BeforeUpdate(w, t))
  {
    if t.command.Some? { CheckpointKeeps(w, t.command.value); }
    var w1 := if t.command.Some? then Checkpointed(w, t.command.value) else w;
    TriesKeep(w1, t.idleAttempt);
    PollsKeep(TriedIdle(w1, t.idleAttempt), t.idlePoll, t.logindPoll);
    var w2 := PolledIdle(TriedIdle(w1, t.idleAttempt), t.idlePoll);
    TriesKeep(w2, t.logindAttempt);
    PollsKeep(TriedLogind(w2, t.logindAttempt), t.idlePoll, t.logindPoll);
    var w3 := PolledLogind(TriedLogind(w2, t.logindAttempt), t.logindPoll);
    TriesKeep(w3, t.niriAttempt);
    if t.checkpointDue.Some? { RefreshKeeps(TriedNiri(w3, t.niriAttempt), t.checkpointDue.value); }
  }

  lemma TurnKeeps(w: Worker, t: Turn)
    requires WorkerInv(w)
    ensures WorkerInv(TurnTaken(w, t))
  {
    BeforeUpdateKeeps(w, t);
    UpdateKeeps(BeforeUpdate(w, t), t.update);
    if t.lateCommand.Some? { CheckpointKeeps(BeforeUpdate(w, t), t.lateCommand.value); }
  }

  /** Over every sequence of turns an available session has both its streams and a checkpoint time. */
  lemma {:induction false} RunKeepsWorkerInv(w: Worker, turns: seq<Turn>)
    requires WorkerInv(w)
    ensures WorkerInv(After(w, turns))
    decreases |turns|
  {
    if turns == [] {
    } else {
      TurnKeeps(w, turns[0]);
      RunKeepsWorkerInv(TurnTaken(w, turns[0]), turns[1..]);
    }
  }
}
