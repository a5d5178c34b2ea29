/**
 The remote session registry of appd: connects, registrations, explicit closes, reapers and the
 shutdown drain racing over the two session maps, the 32-permit semaphore and the admission flag.

 One step is one critical section, one semaphore operation or one answer of an adapter. The file
 map and the terminal map are written as one map whose keys carry the kind; no step touches both
 kinds. A handle names one session returned by an adapter. Instants are milliseconds.
 */
module SessionRegistry {
  import opened SessionExpiry

  const MAX_REMOTE_SESSIONS: nat := 32
  const MAX_REMOTE_CLOSE_CONCURRENCY: nat := 8

  datatype Kind = File | Terminal

  datatype Key = Key(kind: Kind, id: nat)

  datatype Entry = Entry(handle: nat, openedAt: nat, lastActivity: nat)

  /** A running operation; each one holds exactly one permit. */
  datatype Task =
    | Connecting(kind: Kind)
    | Connected(kind: Kind, handle: nat)
    | MustClose(handle: nat)            // owns a session outside the map, close not attempted yet
    | Closing(handle: nat)              // close attempted, still holding the permit
    | TransferConnecting
    | TransferConnected(handle: nat)
    | TransferUse(handle: nat)          // wrapped in CapacityBoundFileSession, owned by the executor
  {
    predicate IsOwner() { Connected? || MustClose? || TransferConnected? }
    predicate Owns(h: nat) { IsOwner() && handle == h }
  }

  datatype Phase = Open | AdmissionClosed | FilesDrained | TerminalsDrained | Finished

  /** History: where a session is. */
  datatype Home = InMap(key: Key) | WithTask(task: nat) | Drained(key: Key) | Attempted | HandedOff

  datatype State = State(
    now: nat,
    free: nat,
    admission: bool,
    capacityOpen: bool,
    sessions: map<Key, Entry>,
    tasks: map<nat, Task>,
    reapers: map<nat, Key>,            // one per registered session, under that session's handle
    phase: Phase,
    pending: map<Key, Entry>,          // drained, not yet given to a closing task
    joinSet: map<Key, Entry>,          // being closed by shutdown
    closes: multiset<nat>,             // close attempts
    home: seq<Home>                    // history, one element for each session returned so far
  )

  const INITIAL: State :=
    State(0, MAX_REMOTE_SESSIONS, true, true, map[], map[], map[], Open, map[], map[], multiset{}, [])

  /** What commands, reapers and transfers do. */
  datatype Operation =
    | Tick(elapsed: nat)
    | Acquire(task: nat, first: Task)
    | ConnectFails(task: nat)
    | ConnectReturns(task: nat)
    | RejectUnusable(task: nat)
    | Register(task: nat, key: Key)
    | Touch(key: Key)
    | Disconnect(key: Key, task: nat)
    | Reap(reaper: nat, task: nat)
    | ReaperExits(reaper: nat)
    | StartClose(task: nat)
    | FinishClose(task: nat)
    | AdmitTransfer(task: nat)
    | DropTransfer(task: nat)

  /** What `shutdown_sessions` does. */
  datatype Drainage =
    | CloseAdmission
    | DrainFiles
    | DrainTerminals
    | SpawnClose(key: Key)
    | JoinClose(key: Key)
    | FinishShutdown

  datatype Event = ByOperation(op: Operation) | ByShutdown(act: Drainage)

  predicate CanOperate(s: State, op: Operation)
  {
    match op
    case Tick(_) => true
    case Acquire(t, first) =>
      t !in s.tasks && s.capacityOpen && s.free > 0 && (first.Connecting? || first.TransferConnecting?)
    case ConnectFails(t) => t in s.tasks && (s.tasks[t].Connecting? || s.tasks[t].TransferConnecting?)
    case ConnectReturns(t) => t in s.tasks && (s.tasks[t].Connecting? || s.tasks[t].TransferConnecting?)
    case RejectUnusable(t) => t in s.tasks && s.tasks[t].Connected? && s.tasks[t].kind.File?
    case Register(t, key) => t in s.tasks && s.tasks[t].Connected? && s.tasks[t].kind == key.kind
    case Touch(key) => key in s.sessions
    case Disconnect(key, t) => key in s.sessions && t !in s.tasks
    case Reap(r, t) =>
      && r in s.reapers && s.reapers[r] in s.sessions && t !in s.tasks
      && IsExpired(s.sessions[s.reapers[r]].openedAt, s.sessions[s.reapers[r]].lastActivity, s.now)
    case ReaperExits(r) =>
      // its map has no such session, or it was told to stop, which happens after its own entry left the map
      r in s.reapers && (s.reapers[r] !in s.sessions || s.sessions[s.reapers[r]].handle != r)
    case StartClose(t) => t in s.tasks && s.tasks[t].MustClose?
    case FinishClose(t) => t in s.tasks && s.tasks[t].Closing?
    case AdmitTransfer(t) => t in s.tasks && s.tasks[t].TransferConnected?
    case DropTransfer(t) => t in s.tasks && s.tasks[t].TransferUse?
  }

  predicate CanDrain(s: State, act: Drainage)
  {
    match act
    case CloseAdmission => s.phase.Open?
    case DrainFiles => s.phase.AdmissionClosed?
    case DrainTerminals => s.phase.FilesDrained?
    case SpawnClose(key) =>
      s.phase.TerminalsDrained? && key in s.pending && |s.joinSet| < MAX_REMOTE_CLOSE_CONCURRENCY
    case JoinClose(key) => s.phase.TerminalsDrained? && key in s.joinSet
    case FinishShutdown => s.phase.TerminalsDrained? && s.pending == map[] && s.joinSet == map[]
  }

  predicate CanStep(s: State, e: Event)
  {
    match e
    case ByOperation(op) => CanOperate(s, op)
    case ByShutdown(act) => CanDrain(s, act)
  }

  function Step(s: State, e: Event): State
    requires CanStep(s, e)
  {
    match e
    case ByOperation(op) => Operate(s, op)
    case ByShutdown(act) => ShutDown(s, act)
  }

  function Operate(s: State, op: Operation): State
    requires CanOperate(s, op)
  {
    match op
    case Tick(elapsed) => s.(now := s.now + elapsed)
    case Acquire(t, first) => Begin(s, t, first)
    case ConnectFails(t) => Release(s, t)
    case ConnectReturns(t) => Return(s, t)
    case RejectUnusable(t) => Keep(s, t)
    case Register(t, key) =>
      if !s.admission || key in s.sessions then Keep(s, t) else Insert(s, t, key)
    case Touch(key) => s.(sessions := s.sessions[key := s.sessions[key].(lastActivity := s.now)])
    case Disconnect(key, t) => TakeOut(s, key, t)
    case Reap(r, t) => TakeOut(s, s.reapers[r], t).(reapers := s.reapers - {r})
    case ReaperExits(r) => s.(reapers := s.reapers - {r})
    case StartClose(t) => Attempt(s, t)
    case FinishClose(t) => Release(s, t)
    case AdmitTransfer(t) => if s.admission then HandOff(s, t) else Keep(s, t)
    case DropTransfer(t) => Release(s, t)
  }

  function ShutDown(s: State, act: Drainage): State
    requires CanDrain(s, act)
  {
    match act
    case CloseAdmission => s.(admission := false, capacityOpen := false, phase := AdmissionClosed)
    case DrainFiles => Drain(s, File).(phase := FilesDrained)
    case DrainTerminals => Drain(s, Terminal).(phase := TerminalsDrained)
    case SpawnClose(key) => AttemptDrained(s, key)
    case JoinClose(key) => s.(joinSet := s.joinSet - {key}, free := s.free + 1)
    case FinishShutdown => s.(phase := Finished)
  }

  function Move(home: seq<Home>, h: nat, place: Home): seq<Home>
  {
    if h < |home| then home[h := place] else home
  }

  function Begin(s: State, t: nat, first: Task): State
    requires s.free > 0
  {
    s.(free := s.free - 1, tasks := s.tasks[t := first])
  }

  /** The task keeps the session it was given, in order to close it. */
  function Keep(s: State, t: nat): State
    requires t in s.tasks && (s.tasks[t].Connected? || s.tasks[t].TransferConnected?)
  {
    s.(tasks := s.tasks[t := MustClose(s.tasks[t].handle)])
  }

  function HandOff(s: State, t: nat): State
    requires t in s.tasks && s.tasks[t].TransferConnected?
  {
    s.(tasks := s.tasks[t := TransferUse(s.tasks[t].handle)], home := Move(s.home, s.tasks[t].handle, HandedOff))
  }

  /** The close of a task's session is called. */
  function Attempt(s: State, t: nat): State
    requires t in s.tasks && s.tasks[t].MustClose?
  {
    var h := s.tasks[t].handle;
    s.(tasks := s.tasks[t := Closing(h)], closes := s.closes + multiset{h}, home := Move(s.home, h, Attempted))
  }

  /** Shutdown gives a drained session to a closing task. */
  function AttemptDrained(s: State, key: Key): State
    requires key in s.pending
  {
    var h := s.pending[key].handle;
    s.(pending := s.pending - {key}, joinSet := s.joinSet[key := s.pending[key]],
       closes := s.closes + multiset{h}, home := Move(s.home, h, Attempted))
  }

  /** The task ends and its permit returns to the semaphore. */
  function Release(s: State, t: nat): State
  {
    s.(free := s.free + 1, tasks := s.tasks - {t})
  }

  /** The adapter returns a new session to its task. */
  function Return(s: State, t: nat): State
    requires t in s.tasks && (s.tasks[t].Connecting? || s.tasks[t].TransferConnecting?)
  {
    var h := |s.home|;
    s.(home := s.home + [WithTask(t)],
       tasks := s.tasks[t := if s.tasks[t].Connecting? then Connected(s.tasks[t].kind, h) else TransferConnected(h)])
  }

  /** Session and permit move from the task into the map, and the session gets its reaper. */
  function Insert(s: State, t: nat, key: Key): State
    requires t in s.tasks && s.tasks[t].Connected?
  {
    var h := s.tasks[t].handle;
    s.(tasks := s.tasks - {t}, sessions := s.sessions[key := Entry(h, s.now, s.now)],
       reapers := s.reapers[h := key], home := Move(s.home, h, InMap(key)))
  }

  /** Session and permit move from the map to a closing task. */
  function TakeOut(s: State, key: Key, t: nat): State
    requires key in s.sessions
  {
    var h := s.sessions[key].handle;
    s.(sessions := s.sessions - {key}, tasks := s.tasks[t := MustClose(h)], home := Move(s.home, h, WithTask(t)))
  }

  function OfKind(m: map<Key, Entry>, kind: Kind): map<Key, Entry>
  {
    map k | k in m && k.kind == kind :: m[k]
  }

  function NotOfKind(m: map<Key, Entry>, kind: Kind): map<Key, Entry>
  {
    map k | k in m && k.kind != kind :: m[k]
  }

  /** The whole map of one kind moves to the shutdown task. */
  function Drain(s: State, kind: Kind): State
  {
    s.(sessions := NotOfKind(s.sessions, kind),
       pending := s.pending + OfKind(s.sessions, kind),
       home := DrainedHome(s.home, kind))
  }

  function DrainedHome(home: seq<Home>, kind: Kind): (r: seq<Home>)
    ensures |r| == |home|
    ensures forall h :: 0 <= h < |home| ==>
              r[h] == if home[h].InMap? && home[h].key.kind == kind then Drained(home[h].key) else home[h]
  {
    seq(|home|, h requires 0 <= h < |home| =>
      if home[h].InMap? && home[h].key.kind == kind then Drained(home[h].key) else home[h])
  }

  predicate ValidRun(s: State, events: seq<Event>)
    decreases |events|
  {
    events == [] || (CanStep(s, events[0]) && ValidRun(Step(s, events[0]), events[1..]))
  }

  function Execute(s: State, events: seq<Event>): State
    requires ValidRun(s, events)
    decreases |events|
  {
    if events == [] then s else Execute(Step(s, events[0]), events[1..])
  }

  // ----- invariant

  /** Every permit is free or held by exactly one registered session, task or drained session. */
  ghost predicate PermitInv(s: State)
  {
    s.free + |s.sessions| + |s.tasks| + |s.pending| + |s.joinSet| == MAX_REMOTE_SESSIONS
  }

  predicate At(home: seq<Home>, h: nat, place: Home) { h < |home| && home[h] == place }

  /** A registered session is at home in the map. */
  ghost predicate MapHome(sessions: map<Key, Entry>, home: seq<Home>)
  {
    && (forall k :: k in sessions ==> At(home, sessions[k].handle, InMap(k)))
    && (forall h :: 0 <= h < |home| && home[h].InMap? ==>
          home[h].key in sessions && sessions[home[h].key].handle == h)
  }

  /** A session not yet registered, or taken out of the map, is at home with its task. */
  ghost predicate TaskHome(tasks: map<nat, Task>, home: seq<Home>)
  {
    && (forall t :: t in tasks && tasks[t].IsOwner() ==> At(home, tasks[t].handle, WithTask(t)))
    && (forall h :: 0 <= h < |home| && home[h].WithTask? ==>
          home[h].task in tasks && tasks[home[h].task].Owns(h))
  }

  ghost predicate DrainHome(pending: map<Key, Entry>, home: seq<Home>)
  {
    && (forall k :: k in pending ==> At(home, pending[k].handle, Drained(k)))
    && (forall h :: 0 <= h < |home| && home[h].Drained? ==>
          home[h].key in pending && pending[home[h].key].handle == h)
  }

  ghost predicate CloseInv(closes: multiset<nat>, home: seq<Home>)
  {
    forall h: nat :: closes[h] == if h < |home| && home[h].Attempted? then 1 else 0
  }

  /** No key is drained twice: a map is emptied once and stays empty. */
  ghost predicate PhaseInv(s: State)
  {
    && (s.admission <==> s.phase.Open?) && (s.capacityOpen <==> s.phase.Open?)
    && (s.phase.Open? || s.phase.AdmissionClosed? ==> s.pending == map[] && s.joinSet == map[])
    && (s.phase.FilesDrained? ==>
          s.joinSet == map[] && (forall k :: k in s.pending ==> k.kind.File?)
          && (forall k :: k in s.sessions ==> k.kind.Terminal?))
    && (s.phase.TerminalsDrained? || s.phase.Finished? ==> s.sessions == map[])
    && (s.phase.Finished? ==> s.pending == map[] && s.joinSet == map[])
    && s.pending.Keys !! s.joinSet.Keys
    && |s.joinSet| <= MAX_REMOTE_CLOSE_CONCURRENCY
  }

  /** Every registered session still has its own reaper. */
  ghost predicate ReaperInv(sessions: map<Key, Entry>, reapers: map<nat, Key>)
  {
    forall k :: k in sessions ==> sessions[k].handle in reapers && reapers[sessions[k].handle] == k
  }

  ghost predicate HomeInv(s: State)
  {
    && MapHome(s.sessions, s.home) && TaskHome(s.tasks, s.home) && DrainHome(s.pending, s.home)
    && CloseInv(s.closes, s.home)
  }

  ghost predicate Inv(s: State)
  {
    PermitInv(s) && HomeInv(s) && PhaseInv(s) && ReaperInv(s.sessions, s.reapers)
  }

  lemma RemoveOne<K, V>(m: map<K, V>, k: K)
    requires k in m
    ensures |m - {k}| == |m| - 1
  {
    assert m.Keys == (m - {k}).Keys + {k};
  }

  // A move between two places leaves the bookkeeping of every other place alone.

  lemma MoveOutsideMap(sessions: map<Key, Entry>, home: seq<Home>, h: nat, place: Home)
    requires MapHome(sessions, home) && h < |home| && !home[h].InMap? && !place.InMap?
    ensures MapHome(sessions, Move(home, h, place))
  {
  }

  lemma MoveOutsideTasks(tasks: map<nat, Task>, home: seq<Home>, h: nat, place: Home)
    requires TaskHome(tasks, home) && h < |home| && !home[h].WithTask? && !place.WithTask?
    ensures TaskHome(tasks, Move(home, h, place))
  {
  }

  lemma MoveOutsideDrain(pending: map<Key, Entry>, home: seq<Home>, h: nat, place: Home)
    requires DrainHome(pending, home) && h < |home| && !home[h].Drained? && !place.Drained?
    ensures DrainHome(pending, Move(home, h, place))
  {
  }

  lemma MoveWithoutClose(closes: multiset<nat>, home: seq<Home>, h: nat, place: Home)
    requires CloseInv(closes, home) && h < |home| && !home[h].Attempted? && !place.Attempted?
    ensures CloseInv(closes, Move(home, h, place))
  {
  }

  lemma MoveToClosed(closes: multiset<nat>, home: seq<Home>, h: nat)
    requires CloseInv(closes, home) && h < |home| && !home[h].Attempted?
    ensures CloseInv(closes + multiset{h}, Move(home, h, Attempted))
  {
  }

  lemma TaskLosesSession(tasks: map<nat, Task>, home: seq<Home>, t: nat, next: Task, place: Home)
    requires TaskHome(tasks, home) && t in tasks && tasks[t].IsOwner() && !next.IsOwner() && !place.WithTask?
    ensures TaskHome(tasks[t := next], Move(home, tasks[t].handle, place))
  {
  }

  lemma ReleaseKeeps(s: State, t: nat)
    requires Inv(s) && t in s.tasks && !s.tasks[t].IsOwner()
    ensures Inv(Release(s, t))
  {
    RemoveOne(s.tasks, t);
  }

  lemma BeginKeeps(s: State, t: nat, first: Task)
    requires Inv(s) && t !in s.tasks && s.free > 0 && (first.Connecting? || first.TransferConnecting?)
    ensures Inv(Begin(s, t, first))
  {
  }

  lemma ReturnKeepsTasks(tasks: map<nat, Task>, home: seq<Home>, t: nat, next: Task)
    requires TaskHome(tasks, home) && t in tasks && !tasks[t].IsOwner() && next.Owns(|home|)
    ensures TaskHome(tasks[t := next], home + [WithTask(t)])
  {
  }

  lemma ReturnKeepsOthers(s: State, place: Home)
    requires HomeInv(s) && place.WithTask?
    ensures var home := s.home + [place];
            MapHome(s.sessions, home) && DrainHome(s.pending, home) && CloseInv(s.closes, home)
  {
  }

  lemma ReturnKeeps(s: State, t: nat)
    requires Inv(s) && t in s.tasks && (s.tasks[t].Connecting? || s.tasks[t].TransferConnecting?)
    ensures Inv(Return(s, t))
  {
    ReturnKeepsTasks(s.tasks, s.home, t, Return(s, t).tasks[t]);
    ReturnKeepsOthers(s, WithTask(t));
  }

  lemma KeepKeeps(s: State, t: nat)
    requires Inv(s) && t in s.tasks && (s.tasks[t].Connected? || s.tasks[t].TransferConnected?)
    ensures Inv(Keep(s, t))
  {
  }

  lemma HandOffKeeps(s: State, t: nat)
    requires Inv(s) && t in s.tasks && s.tasks[t].TransferConnected?
    ensures Inv(HandOff(s, t))
  {
    var h := s.tasks[t].handle;
    TaskLosesSession(s.tasks, s.home, t, TransferUse(h), HandedOff);
    MoveOutsideMap(s.sessions, s.home, h, HandedOff);
    MoveOutsideDrain(s.pending, s.home, h, HandedOff);
    MoveWithoutClose(s.closes, s.home, h, HandedOff);
  }

  lemma AttemptKeeps(s: State, t: nat)
    requires Inv(s) && t in s.tasks && s.tasks[t].MustClose?
    ensures Inv(Attempt(s, t))
  {
    var h := s.tasks[t].handle;
    TaskLosesSession(s.tasks, s.home, t, Closing(h), Attempted);
    MoveOutsideMap(s.sessions, s.home, h, Attempted);
    MoveOutsideDrain(s.pending, s.home, h, Attempted);
    MoveToClosed(s.closes, s.home, h);
  }

  lemma InsertKeepsHomes(s: State, t: nat, key: Key)
    requires MapHome(s.sessions, s.home) && TaskHome(s.tasks, s.home)
    requires t in s.tasks && s.tasks[t].Connected? && key !in s.sessions
    ensures var n := Insert(s, t, key); MapHome(n.sessions, n.home) && TaskHome(n.tasks, n.home)
  {
  }

  lemma InsertKeepsReapers(s: State, t: nat, key: Key)
    requires MapHome(s.sessions, s.home) && TaskHome(s.tasks, s.home) && ReaperInv(s.sessions, s.reapers)
    requires t in s.tasks && s.tasks[t].Connected?
    ensures var n := Insert(s, t, key); ReaperInv(n.sessions, n.reapers)
  {
  }

  lemma InsertKeeps(s: State, t: nat, key: Key)
    requires Inv(s) && t in s.tasks && s.tasks[t].Connected? && key !in s.sessions && s.admission
    ensures Inv(Insert(s, t, key))
  {
    RemoveOne(s.tasks, t);
    InsertKeepsHomes(s, t, key);
    InsertKeepsReapers(s, t, key);
    MoveOutsideDrain(s.pending, s.home, s.tasks[t].handle, InMap(key));
    MoveWithoutClose(s.closes, s.home, s.tasks[t].handle, InMap(key));
  }

  lemma TakeOutKeepsHomes(s: State, key: Key, t: nat)
    requires MapHome(s.sessions, s.home) && TaskHome(s.tasks, s.home) && key in s.sessions && t !in s.tasks
    ensures var n := TakeOut(s, key, t); MapHome(n.sessions, n.home) && TaskHome(n.tasks, n.home)
  {
  }

  lemma TakeOutKeeps(s: State, key: Key, t: nat)
    requires Inv(s) && key in s.sessions && t !in s.tasks
    ensures Inv(TakeOut(s, key, t))
  {
    RemoveOne(s.sessions, key);
    TakeOutKeepsHomes(s, key, t);
    MoveOutsideDrain(s.pending, s.home, s.sessions[key].handle, WithTask(t));
    MoveWithoutClose(s.closes, s.home, s.sessions[key].handle, WithTask(t));
  }

  lemma DrainLosesSession(pending: map<Key, Entry>, home: seq<Home>, key: Key)
    requires DrainHome(pending, home) && key in pending
    ensures DrainHome(pending - {key}, Move(home, pending[key].handle, Attempted))
  {
  }

  lemma AttemptDrainedKeeps(s: State, key: Key)
    requires Inv(s) && CanDrain(s, SpawnClose(key))
    ensures Inv(AttemptDrained(s, key))
  {
    var h := s.pending[key].handle;
    RemoveOne(s.pending, key);
    DrainLosesSession(s.pending, s.home, key);
    MoveOutsideMap(s.sessions, s.home, h, Attempted);
    MoveOutsideTasks(s.tasks, s.home, h, Attempted);
    MoveToClosed(s.closes, s.home, h);
  }

  lemma SplitByKind(m: map<Key, Entry>, kind: Kind)
    ensures |OfKind(m, kind)| + |NotOfKind(m, kind)| == |m|
  {
    assert m.Keys == OfKind(m, kind).Keys + NotOfKind(m, kind).Keys;
  }

  lemma DrainKeepsMap(sessions: map<Key, Entry>, home: seq<Home>, kind: Kind)
    requires MapHome(sessions, home)
    ensures MapHome(NotOfKind(sessions, kind), DrainedHome(home, kind))
  {
  }

  lemma DrainFillsPending(s: State, kind: Kind)
    requires MapHome(s.sessions, s.home) && DrainHome(s.pending, s.home)
    requires forall k :: k in s.pending ==> k.kind != kind
    ensures DrainHome(s.pending + OfKind(s.sessions, kind), DrainedHome(s.home, kind))
  {
  }

  lemma DrainKeepsHomes(s: State, kind: Kind)
    requires HomeInv(s) && forall k :: k in s.pending ==> k.kind != kind
    ensures HomeInv(Drain(s, kind))
  {
    DrainKeepsMap(s.sessions, s.home, kind);
    DrainFillsPending(s, kind);
  }

  lemma DrainKeepsPermits(s: State, kind: Kind)
    requires PermitInv(s) && forall k :: k in s.pending ==> k.kind != kind
    ensures PermitInv(Drain(s, kind))
  {
    SplitByKind(s.sessions, kind);
    var drained := OfKind(s.sessions, kind);
    assert (s.pending + drained).Keys == s.pending.Keys + drained.Keys;
    assert s.pending.Keys !! drained.Keys;
  }

  lemma DrainKeepsPhase(s: State, kind: Kind, next: Phase)
    requires PhaseInv(s) && ReaperInv(s.sessions, s.reapers)
    requires (kind, s.phase, next) == (File, AdmissionClosed, FilesDrained)
          || (kind, s.phase, next) == (Terminal, FilesDrained, TerminalsDrained)
    ensures var n := Drain(s, kind).(phase := next); PhaseInv(n) && ReaperInv(n.sessions, n.reapers)
  {
  }

  lemma DrainKeeps(s: State, kind: Kind, next: Phase)
    requires Inv(s)
    requires (kind, s.phase, next) == (File, AdmissionClosed, FilesDrained)
          || (kind, s.phase, next) == (Terminal, FilesDrained, TerminalsDrained)
    ensures Inv(Drain(s, kind).(phase := next))
  {
    DrainKeepsHomes(s, kind);
    DrainKeepsPermits(s, kind);
    DrainKeepsPhase(s, kind, next);
  }

  lemma JoinKeeps(s: State, key: Key)
    requires Inv(s) && CanDrain(s, JoinClose(key))
    ensures Inv(ShutDown(s, JoinClose(key)))
  {
    RemoveOne(s.joinSet, key);
  }

  lemma ReaperExitKeeps(s: State, r: nat)
    requires Inv(s) && CanOperate(s, ReaperExits(r))
    ensures Inv(Operate(s, ReaperExits(r)))
  {
  }

  lemma TouchKeepsEntries(sessions: map<Key, Entry>, home: seq<Home>, reapers: map<nat, Key>, key: Key, now: nat)
    requires MapHome(sessions, home) && ReaperInv(sessions, reapers) && key in sessions
    ensures var touched := sessions[key := sessions[key].(lastActivity := now)];
            MapHome(touched, home) && ReaperInv(touched, reapers) && touched.Keys == sessions.Keys
  {
  }

  lemma TouchKeeps(s: State, key: Key)
    requires Inv(s) && key in s.sessions
    ensures Inv(s.(sessions := s.sessions[key := s.sessions[key].(lastActivity := s.now)]))
  {
    TouchKeepsEntries(s.sessions, s.home, s.reapers, key, s.now);
    TouchKeepsPhase(s, s.sessions[key := s.sessions[key].(lastActivity := s.now)]);
  }

  /** Phases and permits look only at the keys of the map. */
  lemma TouchKeepsPhase(s: State, touched: map<Key, Entry>)
    requires PhaseInv(s) && PermitInv(s) && touched.Keys == s.sessions.Keys
    ensures PhaseInv(s.(sessions := touched)) && PermitInv(s.(sessions := touched))
  {
    assert |touched| == |touched.Keys| && |s.sessions| == |s.sessions.Keys|;
    assert s.sessions == map[] ==> touched == map[];
  }

  lemma OperateKeeps(s: State, op: Operation)
    requires Inv(s) && CanOperate(s, op)
    ensures Inv(Operate(s, op))
  {
    match op
    case Tick(_) =>
    case Acquire(t, first) => BeginKeeps(s, t, first);
    case ConnectFails(t) => ReleaseKeeps(s, t);
    case ConnectReturns(t) => ReturnKeeps(s, t);
    case RejectUnusable(t) => KeepKeeps(s, t);
    case Register(t, key) =>
      if !s.admission || key in s.sessions {
        KeepKeeps(s, t);
      } else {
        InsertKeeps(s, t, key);
      }
    case Touch(key) => TouchKeeps(s, key);
    case Disconnect(key, t) => TakeOutKeeps(s, key, t);
    case Reap(r, t) => ReapKeeps(s, r, t);
    case ReaperExits(r) => ReaperExitKeeps(s, r);
    case StartClose(t) => AttemptKeeps(s, t);
    case FinishClose(t) => ReleaseKeeps(s, t);
    case AdmitTransfer(t) =>
      if s.admission {
        HandOffKeeps(s, t);
      } else {
        KeepKeeps(s, t);
      }
    case DropTransfer(t) => ReleaseKeeps(s, t);
  }

  lemma ShutDownKeeps(s: State, act: Drainage)
    requires Inv(s) && CanDrain(s, act)
    ensures Inv(ShutDown(s, act))
  {
    match act
    case CloseAdmission =>
    case DrainFiles => DrainKeeps(s, File, FilesDrained);
    case DrainTerminals => DrainKeeps(s, Terminal, TerminalsDrained);
    case SpawnClose(key) => AttemptDrainedKeeps(s, key);
    case JoinClose(key) => JoinKeeps(s, key);
    case FinishShutdown =>
  }

  lemma StepKeepsInv(s: State, e: Event)
    requires Inv(s) && CanStep(s, e)
    ensures Inv(Step(s, e))
  {
    match e
    case ByOperation(op) => OperateKeeps(s, op);
    case ByShutdown(act) => ShutDownKeeps(s, act);
  }

  lemma ReapLeavesOthersWatched(sessions: map<Key, Entry>, reapers: map<nat, Key>, r: nat)
    requires ReaperInv(sessions, reapers) && r in reapers
    ensures ReaperInv(sessions - {reapers[r]}, reapers - {r})
  {
  }

  lemma ReapKeeps(s: State, r: nat, t: nat)
    requires Inv(s) && CanOperate(s, Reap(r, t))
    ensures Inv(Operate(s, Reap(r, t)))
  {
    TakeOutKeeps(s, s.reapers[r], t);
    ReapLeavesOthersWatched(s.sessions, s.reapers, r);
  }

  lemma {:induction false} RunKeepsInv(s: State, events: seq<Event>)
    requires Inv(s) && ValidRun(s, events)
    ensures Inv(Execute(s, events))
    decreases |events|
  {
    if events == [] {
    } else {
      StepKeepsInv(s, events[0]);
      RunKeepsInv(Step(s, events[0]), events[1..]);
    }
  }

  // ----- what each operation does

  /**
   With admission open and the key free, Register makes the task's session an entry that was opened and used
   just now, watched by its own reaper; otherwise the session stays with the task, which must close it.
   */
  lemma RegisterExactly(s: State, t: nat, key: Key)
    requires CanOperate(s, Register(t, key))
    ensures var n, h := Operate(s, Register(t, key)), s.tasks[t].handle;
      && n.now == s.now && n.free == s.free && n.closes == s.closes && n.phase == s.phase
      && if s.admission && key !in s.sessions then
           && n.sessions == s.sessions[key := Entry(h, s.now, s.now)] && n.tasks == s.tasks - {t}
           && n.reapers == s.reapers[h := key]
         else n.sessions == s.sessions && n.tasks == s.tasks[t := MustClose(h)] && n.reapers == s.reapers
  {
  }

  /** Touch sets the entry's last activity to now and changes nothing else. */
  lemma TouchExactly(s: State, key: Key)
    requires CanOperate(s, Touch(key))
    ensures var n := Operate(s, Touch(key));
      && n.sessions.Keys == s.sessions.Keys
      && n.sessions[key] == Entry(s.sessions[key].handle, s.sessions[key].openedAt, s.now)
      && (forall k :: k in s.sessions && k != key ==> n.sessions[k] == s.sessions[k])
      && n.(sessions := s.sessions) == s
  {
  }

  /** An explicit close and a reap take exactly that entry out and leave its session to a task that must close it. */
  lemma TakeOutExactly(s: State, op: Operation, key: Key, t: nat)
    requires CanOperate(s, op)
    requires op == Disconnect(key, t) || (op.Reap? && op.task == t && s.reapers[op.reaper] == key)
    ensures var n := Operate(s, op);
      && n.sessions == s.sessions - {key} && n.tasks == s.tasks[t := MustClose(s.sessions[key].handle)]
      && n.now == s.now && n.free == s.free && n.closes == s.closes && n.phase == s.phase
  {
  }

  /** A transfer gets its session exactly while admission is open; otherwise the task must close it. */
  lemma AdmitTransferExactly(s: State, t: nat)
    requires CanOperate(s, AdmitTransfer(t))
    ensures var n, h := Operate(s, AdmitTransfer(t)), s.tasks[t].handle;
      && n.sessions == s.sessions && n.free == s.free && n.closes == s.closes
      && n.tasks == s.tasks[t := if s.admission then TransferUse(h) else MustClose(h)]
  {
  }

  /** An adapter's answer gives the task a session no one has seen before. */
  lemma ConnectReturnsExactly(s: State, t: nat)
    requires CanOperate(s, ConnectReturns(t))
    ensures var n := Operate(s, ConnectReturns(t));
      && n.tasks == s.tasks[t := if s.tasks[t].Connecting? then Connected(s.tasks[t].kind, |s.home|)
                                 else TransferConnected(|s.home|)]
      && |n.home| == |s.home| + 1 && n.sessions == s.sessions && n.free == s.free
  {
  }

  /** A close calls the adapter for exactly the task's session, and its end returns exactly one permit. */
  lemma CloseExactly(s: State, t: nat)
    requires t in s.tasks
    ensures s.tasks[t].MustClose? ==>
      && CanOperate(s, StartClose(t))
      && var n := Operate(s, StartClose(t));
         n.closes == s.closes + multiset{s.tasks[t].handle} && n.tasks == s.tasks[t := Closing(s.tasks[t].handle)]
    ensures s.tasks[t].Closing? ==>
      && CanOperate(s, FinishClose(t))
      && var n := Operate(s, FinishClose(t));
         n.free == s.free + 1 && n.tasks == s.tasks - {t} && n.closes == s.closes
  {
  }

  /** A connect that fails and a transfer that ends give their permit back and are gone; nothing else moves. */
  lemma EndsExactly(s: State, t: nat, op: Operation)
    requires op == ConnectFails(t) || op == DropTransfer(t)
    requires CanOperate(s, op)
    ensures Operate(s, op) == s.(free := s.free + 1, tasks := s.tasks - {t})
  {
  }

  /** A session the daemon cannot use stays with its task, which must close it. */
  lemma RejectExactly(s: State, t: nat)
    requires CanOperate(s, RejectUnusable(t))
    ensures Operate(s, RejectUnusable(t)) == s.(tasks := s.tasks[t := MustClose(s.tasks[t].handle)])
  {
  }

  /** Shutdown first shuts both doors, then empties one map after the other into its own hands. */
  lemma DrainExactly(s: State)
    ensures s.phase.Open? ==>
      && CanDrain(s, CloseAdmission)
      && ShutDown(s, CloseAdmission) == s.(admission := false, capacityOpen := false, phase := AdmissionClosed)
    ensures s.phase.AdmissionClosed? ==>
      && CanDrain(s, DrainFiles)
      && var n := ShutDown(s, DrainFiles);
         n.phase.FilesDrained? && Drains(s, n, File)
    ensures s.phase.FilesDrained? ==>
      && CanDrain(s, DrainTerminals)
      && var n := ShutDown(s, DrainTerminals);
         n.phase.TerminalsDrained? && Drains(s, n, Terminal)
  {
    MapsDrain(s, File);
    MapsDrain(s, Terminal);
  }

  /** The entries of one kind, and only they, have moved from the maps into the hands of shutdown. */
  predicate Drains(s: State, n: State, kind: Kind)
  {
    && (forall k :: k in s.sessions && k.kind != kind ==> k in n.sessions && n.sessions[k] == s.sessions[k])
    && (forall k :: k in n.sessions ==> k in s.sessions && k.kind != kind)
    && (forall k :: k in s.sessions && k.kind == kind ==> k in n.pending && n.pending[k] == s.sessions[k])
    && n.free == s.free && n.closes == s.closes && n.tasks == s.tasks
  }

  lemma MapsDrain(s: State, kind: Kind)
    ensures Drains(s, Drain(s, kind), kind)
  {
  }

  /** A drained session is given to one closing task, which attempts its close and at its end returns its permit. */
  lemma DrainCloseExactly(s: State, key: Key)
    ensures CanDrain(s, SpawnClose(key)) ==>
      var n := ShutDown(s, SpawnClose(key));
      && n.pending == s.pending - {key} && n.joinSet == s.joinSet[key := s.pending[key]]
      && n.closes == s.closes + multiset{s.pending[key].handle} && n.free == s.free
    ensures CanDrain(s, JoinClose(key)) ==>
      ShutDown(s, JoinClose(key)) == s.(joinSet := s.joinSet - {key}, free := s.free + 1)
  {
  }

  // ----- theorems over every interleaving

  /** A connect gets a permit exactly while sessions are admitted and fewer than 32 permits are in use. */
  lemma AcquireExactly(events: seq<Event>, t: nat, kind: Kind)
    requires ValidRun(INITIAL, events) && t !in Execute(INITIAL, events).tasks
    ensures var s := Execute(INITIAL, events);
            var registered := |OfKind(s.sessions, File)| + |OfKind(s.sessions, Terminal)|;
            var held := registered + |s.tasks| + |s.pending| + |s.joinSet|;
            CanOperate(s, Acquire(t, Connecting(kind))) <==> s.phase.Open? && held < MAX_REMOTE_SESSIONS
  {
    RunKeepsInv(INITIAL, events);
    PermitsAreConserved(events);
    AdmissionIsOpenPhase(Execute(INITIAL, events));
  }

  lemma AdmissionIsOpenPhase(s: State)
    requires Inv(s)
    ensures s.admission == s.capacityOpen == s.phase.Open?
  {
  }

  /** And takes exactly one. */
  lemma AcquireTakesOne(s: State, t: nat, first: Task)
    requires CanOperate(s, Acquire(t, first))
    ensures Operate(s, Acquire(t, first)) == s.(free := s.free - 1, tasks := s.tasks[t := first])
  {
  }

  lemma FilesAndTerminals(m: map<Key, Entry>)
    ensures |OfKind(m, File)| + |OfKind(m, Terminal)| == |m|
  {
    SplitByKind(m, File);
    assert NotOfKind(m, File) == OfKind(m, Terminal);
  }

  /** Free permits and permits in use always add up to 32, so the two maps never hold more than 32 sessions. */
  lemma PermitsAreConserved(events: seq<Event>)
    requires ValidRun(INITIAL, events)
    ensures var s := Execute(INITIAL, events);
            && s.free + |OfKind(s.sessions, File)| + |OfKind(s.sessions, Terminal)|
               + |s.tasks| + |s.pending| + |s.joinSet| == MAX_REMOTE_SESSIONS
            && |OfKind(s.sessions, File)| + |OfKind(s.sessions, Terminal)| <= MAX_REMOTE_SESSIONS
  {
    RunKeepsInv(INITIAL, events);
    FilesAndTerminals(Execute(INITIAL, events).sessions);
  }

  /** No session's close is attempted twice, whoever races for it. */
  lemma CloseAtMostOnce(events: seq<Event>, h: nat)
    requires ValidRun(INITIAL, events)
    ensures Execute(INITIAL, events).closes[h] <= 1
  {
    RunKeepsInv(INITIAL, events);
  }

  /**
   Once shutdown has finished and every started operation has ended, each session an adapter ever
   returned was closed exactly once, except those handed to the transfer executor, never closed here.
   */
  lemma QuiescenceClosedEverySession(events: seq<Event>)
    requires ValidRun(INITIAL, events)
    requires var s := Execute(INITIAL, events); s.phase.Finished? && s.tasks == map[]
    ensures var s := Execute(INITIAL, events);
            forall h: nat :: s.closes[h] == if h < |s.home| && !s.home[h].HandedOff? then 1 else 0
  {
    RunKeepsInv(INITIAL, events);
    var s := Execute(INITIAL, events);
    forall h: nat | h < |s.home| ensures s.home[h].Attempted? || s.home[h].HandedOff? {
    }
  }

  lemma OperateAfterAdmission(s: State, op: Operation)
    requires !s.admission && CanOperate(s, op)
    ensures !Operate(s, op).admission && Operate(s, op).sessions.Keys <= s.sessions.Keys
  {
  }

  lemma ShutDownAfterAdmission(s: State, act: Drainage)
    requires !s.admission && CanDrain(s, act)
    ensures !ShutDown(s, act).admission && ShutDown(s, act).sessions.Keys <= s.sessions.Keys
  {
  }

  lemma StepAfterAdmission(s: State, e: Event)
    requires !s.admission && CanStep(s, e)
    ensures !Step(s, e).admission && Step(s, e).sessions.Keys <= s.sessions.Keys
  {
    match e
    case ByOperation(op) => OperateAfterAdmission(s, op);
    case ByShutdown(act) => ShutDownAfterAdmission(s, act);
  }

  /** After admission closes nothing is ever inserted: both maps only shrink. */
  lemma {:induction false} NothingEntersAfterAdmission(s: State, events: seq<Event>)
    requires Inv(s) && !s.admission && ValidRun(s, events)
    ensures Execute(s, events).sessions.Keys <= s.sessions.Keys
    decreases |events|
  {
    if events == [] {
    } else {
      StepKeepsInv(s, events[0]);
      StepAfterAdmission(s, events[0]);
      NothingEntersAfterAdmission(Step(s, events[0]), events[1..]);
    }
  }

  /** So after the drain both maps stay empty. */
  lemma DrainedMapsStayEmpty(before: seq<Event>, after: seq<Event>)
    requires ValidRun(INITIAL, before)
    requires Execute(INITIAL, before).phase.TerminalsDrained? || Execute(INITIAL, before).phase.Finished?
    requires ValidRun(Execute(INITIAL, before), after)
    ensures Execute(Execute(INITIAL, before), after).sessions == map[]
  {
    RunKeepsInv(INITIAL, before);
    NothingEntersAfterAdmission(Execute(INITIAL, before), after);
  }

  /** Every registered session has a live reaper watching its key. */
  lemma EverySessionIsWatched(events: seq<Event>, key: Key)
    requires ValidRun(INITIAL, events) && key in Execute(INITIAL, events).sessions
    ensures var s := Execute(INITIAL, events);
            s.sessions[key].handle in s.reapers && s.reapers[s.sessions[key].handle] == key
  {
    RunKeepsInv(INITIAL, events);
  }

  /** By the guards: an operation removes an entry only as an explicit close or as a reaper on an expired one. */
  lemma RemovalHasCause(s: State, op: Operation, key: Key)
    requires CanOperate(s, op) && key in s.sessions && key !in Operate(s, op).sessions
    ensures (op.Disconnect? && op.key == key)
         || (op.Reap? && IsExpired(s.sessions[key].openedAt, s.sessions[key].lastActivity, s.now))
  {
  }

  /** Closes still to be given out count twice, closes still running once. */
  function LeftToDrain(s: State): nat
  {
    2 * |s.pending| + |s.joinSet|
  }

  /** Every step of the drain finishes it or leaves less to do. */
  lemma DrainStepAdvances(s: State, act: Drainage)
    requires s.phase.TerminalsDrained? && CanDrain(s, act)
    ensures var n := ShutDown(s, act);
            n.phase.Finished? || (n.phase.TerminalsDrained? && LeftToDrain(n) < LeftToDrain(s))
  {
    match act
    case SpawnClose(key) => RemoveOne(s.pending, key);
    case JoinClose(key) => RemoveOne(s.joinSet, key);
    case _ =>
  }

  /** And nothing else adds to it. */
  lemma OperationsLeaveDrain(s: State, op: Operation)
    requires CanOperate(s, op)
    ensures var n := Operate(s, op);
            n.phase == s.phase && n.pending == s.pending && n.joinSet == s.joinSet
  {
  }

  /** How many of the events are steps of shutdown. */
  function ShutdownSteps(events: seq<Event>): nat
  {
    if events == [] then 0 else (if events[0].ByShutdown? then 1 else 0) + ShutdownSteps(events[1..])
  }

  lemma {:induction false} DrainIsFinite(s: State, events: seq<Event>)
    requires s.phase.TerminalsDrained? || s.phase.Finished?
    requires ValidRun(s, events)
    ensures ShutdownSteps(events) <= if s.phase.Finished? then 0 else LeftToDrain(s) + 1
    decreases |events|
  {
    if events == [] {
    } else {
      var e := events[0];
      if e.ByOperation? {
        OperationsLeaveDrain(s, e.op);
      } else {
        DrainStepAdvances(s, e.act);
      }
      DrainIsFinite(Step(s, e), events[1..]);
    }
  }

  /**
   Once both maps are drained, whatever else runs, shutdown takes at most 65 more steps; by
   `DrainMakesProgress` it always has one until it has finished.
   */
  lemma DrainEnds(before: seq<Event>, after: seq<Event>)
    requires ValidRun(INITIAL, before) && Execute(INITIAL, before).phase.TerminalsDrained?
    requires ValidRun(Execute(INITIAL, before), after)
    ensures ShutdownSteps(after) <= 2 * MAX_REMOTE_SESSIONS + 1
  {
    RunKeepsInv(INITIAL, before);
    DrainIsFinite(Execute(INITIAL, before), after);
  }

  lemma DrainAdvances(s: State) returns (act: Drainage)
    requires PhaseInv(s) && s.phase.TerminalsDrained?
    ensures CanDrain(s, act)
    ensures var n := ShutDown(s, act);
            n.phase.Finished? || LeftToDrain(n) < LeftToDrain(s)
  {
    if s.joinSet != map[] {
      var key :| key in s.joinSet;
      RemoveOne(s.joinSet, key);
      act := JoinClose(key);
    } else if s.pending != map[] {
      var key :| key in s.pending;
      RemoveOne(s.pending, key);
      act := SpawnClose(key);
    } else {
      act := FinishShutdown;
    }
  }

  /** Shutdown keeps at most eight closes running and is never stuck: some step of it is enabled and advances. */
  lemma DrainMakesProgress(events: seq<Event>) returns (act: Drainage)
    requires ValidRun(INITIAL, events) && Execute(INITIAL, events).phase.TerminalsDrained?
    ensures var s := Execute(INITIAL, events);
            && |s.joinSet| <= MAX_REMOTE_CLOSE_CONCURRENCY
            && CanDrain(s, act)
            && (var n := ShutDown(s, act);
                n.phase.Finished? || LeftToDrain(n) < LeftToDrain(s))
  {
    RunKeepsInv(INITIAL, events);
    act := DrainAdvances(Execute(INITIAL, events));
  }

  // ----- lifetimes, read off the events

  /** The clock after the events. */
  function Clock(events: seq<Event>): nat
  {
    if events == [] then 0
    else
      var e := events[|events| - 1];
      Clock(events[..|events| - 1]) + (if e.ByOperation? && e.op.Tick? then e.op.elapsed else 0)
  }

  /** Event `e`, met in state `s`, is the registration of a new session under `key`. */
  predicate Registers(s: State, e: Event, key: Key)
  {
    e.ByOperation? && e.op.Register? && e.op.key == key && s.phase.Open? && key !in s.sessions
  }

  /** When the session under `key` was registered: the clock at the last event that did it. */
  ghost function OpenedAt(events: seq<Event>, key: Key): nat
    requires ValidRun(INITIAL, events)
  {
    if events == [] then 0
    else
      RunSplits(INITIAL, events);
      var init, e := events[..|events| - 1], events[|events| - 1];
      if Registers(Execute(INITIAL, init), e, key) then Clock(init) else OpenedAt(init, key)
  }

  /** When it was last used: the clock at the last event that registered or touched it. */
  ghost function LastUse(events: seq<Event>, key: Key): nat
    requires ValidRun(INITIAL, events)
  {
    if events == [] then 0
    else
      RunSplits(INITIAL, events);
      var init, e := events[..|events| - 1], events[|events| - 1];
      if Registers(Execute(INITIAL, init), e, key) || e == ByOperation(Touch(key)) then Clock(init)
      else LastUse(init, key)
  }

  /** A run is its first events and one more step. */
  lemma {:induction false} RunSplits(s: State, events: seq<Event>)
    requires ValidRun(s, events) && events != []
    ensures var init, e := events[..|events| - 1], events[|events| - 1];
            ValidRun(s, init) && CanStep(Execute(s, init), e) && Execute(s, events) == Step(Execute(s, init), e)
    decreases |events|
  {
    var init, e := events[..|events| - 1], events[|events| - 1];
    if |events| == 1 {
      assert init == [] && events[1..] == [];
    } else {
      RunSplits(Step(s, events[0]), events[1..]);
      assert init[1..] == events[1..][..|events| - 2] && init[0] == events[0];
    }
  }

  /** What one step does to the clock and to the times of an entry that is there afterwards. */
  predicate TimesFollow(s: State, e: Event, n: State, key: Key)
    requires key in n.sessions
  {
    if Registers(s, e, key) then n.sessions[key].openedAt == n.sessions[key].lastActivity == s.now
    else
      && key in s.sessions && n.sessions[key].openedAt == s.sessions[key].openedAt
      && n.sessions[key].lastActivity == (if e == ByOperation(Touch(key)) then s.now else s.sessions[key].lastActivity)
  }

  lemma OperationTimes(s: State, op: Operation, key: Key)
    requires CanOperate(s, op) && (s.admission <==> s.phase.Open?) && key in Operate(s, op).sessions
    ensures TimesFollow(s, ByOperation(op), Operate(s, op), key)
  {
  }

  lemma ShutdownTimes(s: State, act: Drainage, key: Key)
    requires CanDrain(s, act) && key in ShutDown(s, act).sessions
    ensures TimesFollow(s, ByShutdown(act), ShutDown(s, act), key)
  {
  }

  lemma OperationClock(s: State, op: Operation)
    requires CanOperate(s, op)
    ensures Operate(s, op).now == s.now + (if op.Tick? then op.elapsed else 0)
  {
  }

  lemma ShutdownClock(s: State, act: Drainage)
    requires CanDrain(s, act)
    ensures ShutDown(s, act).now == s.now
  {
  }

  lemma StepTimes(s: State, e: Event, key: Key)
    requires CanStep(s, e) && (s.admission <==> s.phase.Open?)
    ensures Step(s, e).now == s.now + (if e.ByOperation? && e.op.Tick? then e.op.elapsed else 0)
    ensures key in Step(s, e).sessions ==> TimesFollow(s, e, Step(s, e), key)
  {
    match e
    case ByOperation(op) =>
      OperationClock(s, op);
      if key in Operate(s, op).sessions { OperationTimes(s, op, key); }
    case ByShutdown(act) =>
      ShutdownClock(s, act);
      if key in ShutDown(s, act).sessions { ShutdownTimes(s, act, key); }
  }

  /** The entry of a registered session carries the times its events say. */
  lemma {:induction false} EntriesFollowEvents(events: seq<Event>, key: Key)
    requires ValidRun(INITIAL, events)
    ensures Execute(INITIAL, events).now == Clock(events)
    ensures var s := Execute(INITIAL, events);
            key in s.sessions ==>
              s.sessions[key].openedAt == OpenedAt(events, key) && s.sessions[key].lastActivity == LastUse(events, key)
    decreases |events|
  {
    if events == [] {
    } else {
      RunSplits(INITIAL, events);
      var init, e := events[..|events| - 1], events[|events| - 1];
      EntriesFollowEvents(init, key);
      RunKeepsInv(INITIAL, init);
      StepTimes(Execute(INITIAL, init), e, key);
    }
  }

  /** By the events: unused for 15 minutes, or registered for 8 hours. */
  ghost predicate Overdue(events: seq<Event>, key: Key)
    requires ValidRun(INITIAL, events)
  {
    || Clock(events) >= LastUse(events, key) + REMOTE_SESSION_IDLE_TIMEOUT
    || Clock(events) >= OpenedAt(events, key) + REMOTE_SESSION_MAX_LEASE
  }

  lemma DrainageHasCause(s: State, act: Drainage, key: Key)
    requires CanDrain(s, act) && key in s.sessions && key !in ShutDown(s, act).sessions
    ensures act == if key.kind.File? then DrainFiles else DrainTerminals
  {
  }

  /**
   A registered session stays in its map through every step except its explicit close, the drain of its map,
   and a reap, and a reap takes it only when it is overdue by the events of the run.
   */
  lemma SessionsStayUntil(events: seq<Event>, e: Event, key: Key)
    requires ValidRun(INITIAL, events) && CanStep(Execute(INITIAL, events), e)
    requires key in Execute(INITIAL, events).sessions
    ensures key in Step(Execute(INITIAL, events), e).sessions
         || (e.ByOperation? && e.op.Disconnect? && e.op.key == key)
         || (e.ByOperation? && e.op.Reap? && Overdue(events, key))
         || e == ByShutdown(if key.kind.File? then DrainFiles else DrainTerminals)
  {
    EntriesFollowEvents(events, key);
    var s := Execute(INITIAL, events);
    if key !in Step(s, e).sessions {
      match e
      case ByOperation(op) => RemovalHasCause(s, op, key);
      case ByShutdown(act) => DrainageHasCause(s, act, key);
    }
  }

  /** And an overdue session can be reaped, by its own reaper, exactly from then on. */
  lemma ReapableExactly(events: seq<Event>, key: Key, t: nat)
    requires ValidRun(INITIAL, events) && key in Execute(INITIAL, events).sessions
    requires t !in Execute(INITIAL, events).tasks
    ensures var s := Execute(INITIAL, events);
            && s.sessions[key].handle in s.reapers && s.reapers[s.sessions[key].handle] == key
            && (CanOperate(s, Reap(s.sessions[key].handle, t)) <==> Overdue(events, key))
            && CanOperate(s, Disconnect(key, t))
  {
    EntriesFollowEvents(events, key);
    EverySessionIsWatched(events, key);
  }

  // ----- a connect that registers

  lemma RunCons(s: State, e: Event, rest: seq<Event>)
    requires CanStep(s, e) && ValidRun(Step(s, e), rest)
    ensures ValidRun(s, [e] + rest) && Execute(s, [e] + rest) == Execute(Step(s, e), rest)
  {
    assert ([e] + rest)[1..] == rest;
  }

  /** A connect that registers: two steps later its session is in the map, opened and used at that moment. */
  lemma ConnectRegisters(kind: Kind, id: nat) returns (s: State)
    ensures var events := [ByOperation(Acquire(0, Connecting(kind))), ByOperation(ConnectReturns(0)),
                           ByOperation(Register(0, Key(kind, id)))];
      ValidRun(INITIAL, events) && s == Execute(INITIAL, events)
    ensures s.sessions == map[Key(kind, id) := Entry(0, 0, 0)] && s.tasks == map[]
    ensures s.reapers == map[0 := Key(kind, id)] && s.free == MAX_REMOTE_SESSIONS - 1 && s.closes == multiset{}
    ensures s.now == 0 && s.phase.Open? && s.home == [InMap(Key(kind, id))]
  {
    var e1, e2 := ByOperation(Acquire(0, Connecting(kind))), ByOperation(ConnectReturns(0));
    var e3 := ByOperation(Register(0, Key(kind, id)));
    var s1 := Step(INITIAL, e1);
    var s2 := Step(s1, e2);
    s := Step(s2, e3);
    assert s.tasks == map[];
    RunCons(s2, e3, []);
    RunCons(s1, e2, [e3]);
    RunCons(INITIAL, e1, [e2, e3]);
    assert [e3] + [] == [e3] && [e2] + [e3] == [e2, e3] && [e1] + [e2, e3] == [e1, e2, e3];
  }
}
