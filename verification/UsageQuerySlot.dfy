/**
 The single-slot query queue of the usage service, its cancellation handshake and its
 shutdown, as an interleaving of atomic steps.

 One step is one atomic load, store or compare-and-swap, one critical section of the
 `current_token` mutex, or one channel operation. Any number of clients run `summary`, one
 worker runs `query_worker`, and one thread runs `QueryRuntime::shutdown`.
 */
module UsageQuerySlot {
  import opened Wrappers

  /** Tokens are drawn from a wrapping 64-bit counter. */
  const U64_SPAN: nat := 0x1_0000_0000_0000_0000

  datatype Message = Query(token: nat) | Shutdown

  /** Where a client stands in `summary`; a client that is not in the map has not started. */
  datatype Client =
    | Claimed                      // `busy` won, token not drawn
    | Reserved(token: nat)         // token drawn, request not sent
    | SendRefused(token: nat)      // `try_send` failed, `busy` not yet cleared
    | Sent(token: nat)             // waiting for the reply
    | CancelStored(token: nat)     // timed out: `cancelled_token` stored
    | CancelDone(token: nat)       // `cancel` returned
    | Left                         // returned without cancelling
  {
    predicate HoldsSlot() { Claimed? || Reserved? || SendRefused? }
    predicate HasToken() { !Claimed? && !Left? }
  }

  datatype Worker =
    | Top                          // about to read `stopping`
    | Waiting                      // blocked in `recv`
    | Taken(token: nat)            // request received
    | Marked(token: nat)           // begin: `current_token` set
    | Admitted(token: nat)         // begin: `stopping` read as false
    | Refused(token: nat)          // begin: decided to refuse
    | RefusedCleared(token: nat)   // begin: its `finish` cleared `current_token`
    | Running(token: nat)          // begin returned true
    | Ending(token: nat)           // about to call `finish`
    | Cleared(token: nat)          // finish: `current_token` cleared
    | Releasing(token: nat)        // finish returned, `busy` not yet cleared
    | Exiting                      // loop left, last store of `busy` pending
    | Exited                       // last store done, receiver still alive
    | Gone                         // receiver dropped
  {
    predicate HasRequest() { !Top? && !Waiting? && !Exiting? && !Exited? && !Gone? }
  }

  /** Progress of `QueryRuntime::shutdown`. */
  datatype Stopper = NotStopping | StopStored | CurrentCancelled | Notified

  datatype Cause = ByCancel(token: nat) | ByStop

  datatype Interrupt = Interrupt(cause: Cause, current: nat)

  /** The one place that holds the slot. */
  datatype Place = AtClient(client: nat) | InQueue | AtWorker

  /** What has happened; no step's guard reads it. */
  datatype Log = Log(
    interrupts: set<Interrupt>,      // interrupts sent, with the token current at that moment
    cancelAsked: set<nat>,           // tokens whose cancel stored `cancelled_token`
    overwritten: set<nat>,           // tokens whose stored cancellation another cancel replaced
    finished: set<nat>,              // tokens whose `finish` compare-and-swap has run
    refused: set<nat>,               // tokens `begin` refused
    takenAfterNotice: nat            // messages received after shutdown's `try_send`
  )

  datatype State = State(
    busy: bool,
    nextToken: nat,
    queue: Option<Message>,
    current: Option<nat>,
    cancelled: nat,
    stopping: bool,
    clients: map<nat, Client>,
    worker: Worker,
    stopper: Stopper,
    holder: Option<Place>,           // history: who holds the slot
    log: Log
  )

  const INITIAL: State :=
    State(false, 1, None, None, 0, false, map[], Top, NotStopping, None, Log({}, {}, {}, {}, {}, 0))

  /** What a client does next where it has a choice, or the only thing it can do. */
  datatype ClientAct =
    | Claim
    | DrawToken
    | GiveUp             // the checkpoint failed: `release_reservation`
    | Send
    | ReleaseRefused
    | Leave              // a reply, or its loss, was observed
    | CancelStore
    | CancelLock

  /** Worker and shutdown thread have no choice: their position says what comes next. */
  datatype Event = OfClient(client: nat, act: ClientAct) | OfWorker | OfStopper

  predicate ClientCan(s: State, c: nat, act: ClientAct)
  {
    match act
    case Claim => c !in s.clients && !s.busy
    case DrawToken => c in s.clients && s.clients[c].Claimed? && s.nextToken + 1 < U64_SPAN
    case GiveUp => c in s.clients && s.clients[c].Reserved?
    case Send => c in s.clients && s.clients[c].Reserved?
    case ReleaseRefused => c in s.clients && s.clients[c].SendRefused?
    case Leave => c in s.clients && s.clients[c].Sent?
    case CancelStore => c in s.clients && s.clients[c].Sent?
    case CancelLock => c in s.clients && s.clients[c].CancelStored?
  }

  function ClientStep(s: State, c: nat, act: ClientAct): State
    requires ClientCan(s, c, act)
  {
    match act
    case Claim => s.(busy := true, clients := s.clients[c := Claimed], holder := Some(AtClient(c)))
    case DrawToken =>
      s.(nextToken := FetchAdd(s.nextToken), clients := s.clients[c := Reserved(s.nextToken)])
    case GiveUp => s.(busy := false, clients := s.clients[c := Left], holder := None)
    case Send =>
      var token := s.clients[c].token;
      if !s.worker.Gone? && s.queue.None? then
        s.(queue := Some(Query(token)), clients := s.clients[c := Sent(token)], holder := Some(InQueue))
      else
        s.(clients := s.clients[c := SendRefused(token)])
    case ReleaseRefused => s.(busy := false, clients := s.clients[c := Left], holder := None)
    case Leave => s.(clients := s.clients[c := Left])
    case CancelStore =>
      var token := s.clients[c].token;
      s.(cancelled := token,
         clients := s.clients[c := CancelStored(token)],
         log := s.log.(cancelAsked := s.log.cancelAsked + {token},
                       overwritten := if s.cancelled != 0 && s.cancelled != token
                                      then s.log.overwritten + {s.cancelled} else s.log.overwritten))
    case CancelLock =>
      var token := s.clients[c].token;
      s.(clients := s.clients[c := CancelDone(token)],
         log := if s.current == Some(token)
                then LogInterrupt(s.log, ByCancel(token), s.current.value) else s.log)
  }

  /** `recv` blocks on an empty queue. */
  predicate WorkerCan(s: State)
  {
    !s.worker.Gone? && (s.worker.Waiting? ==> s.queue.Some?)
  }

  function WorkerStep(s: State): State
    requires WorkerCan(s)
  {
    match s.worker
    case Top => s.(worker := if s.stopping then Exiting else Waiting)
    case Waiting =>
      s.(queue := None,
         worker := match s.queue.value case Query(t) => Taken(t) case Shutdown => Exiting,
         holder := if s.queue.value.Query? then Some(AtWorker) else s.holder,
         log := if s.stopper.Notified?
                then s.log.(takenAfterNotice := s.log.takenAfterNotice + 1) else s.log)
    case Taken(t) => s.(current := Some(t), worker := Marked(t))
    case Marked(t) => if s.stopping then Refuse(s, t) else s.(worker := Admitted(t))
    case Admitted(t) => if s.cancelled == t then Refuse(s, t) else s.(worker := Running(t))
    case Refused(t) => ClearCurrent(s, t).(worker := RefusedCleared(t))
    case RefusedCleared(t) => SwapCancelled(s, t).(worker := Ending(t))
    case Running(t) => s.(worker := Ending(t))
    case Ending(t) => ClearCurrent(s, t).(worker := Cleared(t))
    case Cleared(t) => SwapCancelled(s, t).(worker := Releasing(t))
    case Releasing(_) => s.(busy := false, worker := Top, holder := None)
    case Exiting => s.(busy := false, worker := Exited, holder := None)
    case Exited => s.(worker := Gone)
  }

  function StopperStep(s: State): State
    requires !s.stopper.Notified?
  {
    match s.stopper
    case NotStopping => s.(stopping := true, stopper := StopStored)
    case StopStored =>
      s.(stopper := CurrentCancelled,
         log := if s.current.Some? then LogInterrupt(s.log, ByStop, s.current.value) else s.log)
    case CurrentCancelled =>
      s.(stopper := Notified,
         queue := if !s.worker.Gone? && s.queue.None? then Some(Shutdown) else s.queue)
  }

  predicate CanStep(s: State, e: Event)
  {
    match e
    case OfClient(c, act) => ClientCan(s, c, act)
    case OfWorker => WorkerCan(s)
    case OfStopper => !s.stopper.Notified?
  }

  function Step(s: State, e: Event): State
    requires CanStep(s, e)
  {
    match e
    case OfClient(c, act) => ClientStep(s, c, act)
    case OfWorker => WorkerStep(s)
    case OfStopper => StopperStep(s)
  }

  function LogInterrupt(log: Log, cause: Cause, current: nat): Log
  {
    log.(interrupts := log.interrupts + {Interrupt(cause, current)})
  }

  /** `fetch_add(1)` on a 64-bit counter. */
  function FetchAdd(n: nat): nat
  {
    if n + 1 == U64_SPAN then 0 else n + 1
  }

  function Refuse(s: State, token: nat): State
  {
    s.(worker := Refused(token), log := s.log.(refused := s.log.refused + {token}))
  }

  /** First half of `finish`: the critical section. */
  function ClearCurrent(s: State, token: nat): State
  {
    if s.current == Some(token) then s.(current := None) else s
  }

  /** Second half of `finish`: the compare-and-swap of `cancelled_token`. */
  function SwapCancelled(s: State, token: nat): State
  {
    s.(cancelled := if s.cancelled == token then 0 else s.cancelled,
       log := s.log.(finished := s.log.finished + {token}))
  }

  predicate ValidRun(s: State, events: seq<Event>)
    decreases |events|
  {
    events == [] || (CanStep(s, events[0]) && ValidRun(Step(s, events[0]), events[1..]))
  }

  function Execute(s: State, events: seq<Event>): State
    requires ValidRun(s, events)
    decreases |events|
  {
    if events == [] then s else Execute(Step(s, events[0]), events[1..])
  }

  // ----- invariant

  /** The worker has not run its final store of `busy`. */
  predicate InLoop(s: State) { !s.worker.Exited? && !s.worker.Gone? }

  ghost predicate SlotInv(s: State)
  {
    InLoop(s) ==>
      && (s.busy <==> s.holder.Some?)
      && (forall c :: c in s.clients ==> (s.clients[c].HoldsSlot() <==> s.holder == Some(AtClient(c))))
      && (forall c :: s.holder == Some(AtClient(c)) ==> c in s.clients)
      && (s.holder == Some(InQueue) <==> s.queue.Some? && s.queue.value.Query?)
      && (s.holder == Some(AtWorker) <==> s.worker.HasRequest())
  }

  ghost predicate TokenInv(s: State)
  {
    && 1 <= s.nextToken < U64_SPAN
    && (forall c :: c in s.clients && s.clients[c].HasToken() ==> 1 <= s.clients[c].token < s.nextToken)
    && (s.queue.Some? && s.queue.value.Query? ==> 1 <= s.queue.value.token < s.nextToken)
    && (s.worker.HasRequest() ==> 1 <= s.worker.token < s.nextToken)
    && (forall t :: t in s.log.finished ==> t < s.nextToken)
  }

  predicate SameToken(a: Client, b: Client)
  {
    a.HasToken() && b.HasToken() && a.token == b.token
  }

  ghost predicate DistinctTokens(s: State)
  {
    forall c, d :: c in s.clients && d in s.clients && SameToken(s.clients[c], s.clients[d]) ==> c == d
  }

  /** What `current_token` holds at each point of the worker. */
  ghost predicate CurrentInv(s: State)
  {
    match s.worker
    case Marked(t) => s.current == Some(t)
    case Admitted(t) => s.current == Some(t)
    case Refused(t) => s.current == Some(t)
    case Running(t) => s.current == Some(t)
    case Ending(t) => s.current.None? || s.current == Some(t)
    case _ => s.current.None?
  }

  /** A request that can still begin has not been finished. */
  ghost predicate FreshInv(s: State)
  {
    InLoop(s) ==>
      && (forall c :: c in s.clients && s.clients[c].Reserved? ==> s.clients[c].token !in s.log.finished)
      && (s.queue.Some? && s.queue.value.Query? ==> s.queue.value.token !in s.log.finished)
      && (s.worker.Taken? || s.worker.Marked? || s.worker.Admitted? || s.worker.Running? ==>
            s.worker.token !in s.log.finished)
  }

  ghost predicate StopInv(s: State)
  {
    && (s.stopping <==> !s.stopper.NotStopping?)
    && (s.stopper.CurrentCancelled? || s.stopper.Notified? ==>
          s.worker.Admitted? || s.worker.Running? ==> Interrupt(ByStop, s.worker.token) in s.log.interrupts)
    && (s.stopper.Notified? ==> s.worker.Waiting? ==> s.queue.Some?)
    && s.log.takenAfterNotice <= 1
    && (s.log.takenAfterNotice == 1 ==> s.stopper.Notified? && !s.worker.Waiting?)
  }

  ghost predicate CancelInv(s: State)
  {
    && (forall c :: c in s.clients && (s.clients[c].CancelStored? || s.clients[c].CancelDone?) ==>
          s.clients[c].token in s.log.cancelAsked)
    && (s.cancelled != 0 ==> s.cancelled in s.log.cancelAsked)
    && (forall t :: t in s.log.cancelAsked ==>
          t != 0 && (t == s.cancelled || t in s.log.overwritten || t in s.log.finished))
  }

  /** A client that has not cancelled left no cancellation behind. */
  ghost predicate AskedInv(s: State)
  {
    && (forall c :: c in s.clients && (s.clients[c].Reserved? || s.clients[c].SendRefused? || s.clients[c].Sent?) ==>
          s.clients[c].token !in s.log.cancelAsked)
    && (forall t :: t in s.log.cancelAsked ==> t < s.nextToken)
  }

  /** A cancellation that was replaced never comes back. */
  ghost predicate ReplacedInv(s: State)
  {
    && s.log.overwritten <= s.log.cancelAsked
    && (s.cancelled != 0 ==> s.cancelled !in s.log.overwritten)
  }

  /** A completed cancel reached its running token, or its mark was replaced before `begin` read it. */
  ghost predicate CancelReaches(s: State)
  {
    forall c :: c in s.clients && s.clients[c].CancelDone? && s.worker == Running(s.clients[c].token) ==>
          Interrupt(ByCancel(s.clients[c].token), s.clients[c].token) in s.log.interrupts
          || s.clients[c].token in s.log.overwritten
  }

  /** Every interrupt and every refusal has an author who meant that token. */
  ghost predicate AuthorInv(s: State)
  {
    && (forall i :: i in s.log.interrupts ==>
          match i.cause
          case ByCancel(t) => i.current == t && t in s.log.cancelAsked
          case ByStop => s.stopping)
    && (forall t :: t in s.log.refused ==> s.stopping || t in s.log.cancelAsked)
  }

  ghost predicate Inv(s: State)
  {
    && SlotInv(s) && TokenInv(s) && DistinctTokens(s) && CurrentInv(s)
    && FreshInv(s) && StopInv(s) && CancelInv(s) && CancelReaches(s)
    && AskedInv(s) && ReplacedInv(s) && AuthorInv(s)
  }

  lemma ClientKeepsSlot(s: State, c: nat, act: ClientAct)
    requires SlotInv(s) && ClientCan(s, c, act)
    ensures SlotInv(ClientStep(s, c, act))
  {
  }

  lemma ClientKeepsTokens(s: State, c: nat, act: ClientAct)
    requires TokenInv(s) && ClientCan(s, c, act)
    ensures TokenInv(ClientStep(s, c, act))
  {
  }

  lemma ClientKeepsDistinct(s: State, c: nat, act: ClientAct)
    requires TokenInv(s) && DistinctTokens(s) && ClientCan(s, c, act)
    ensures DistinctTokens(ClientStep(s, c, act))
  {
  }

  lemma ClientKeepsFresh(s: State, c: nat, act: ClientAct)
    requires TokenInv(s) && FreshInv(s) && ClientCan(s, c, act)
    ensures FreshInv(ClientStep(s, c, act))
  {
  }

  lemma ClientKeepsCancel(s: State, c: nat, act: ClientAct)
    requires TokenInv(s) && CancelInv(s) && ClientCan(s, c, act)
    ensures CancelInv(ClientStep(s, c, act))
  {
  }

  lemma ClientKeepsReach(s: State, c: nat, act: ClientAct)
    requires CurrentInv(s) && CancelReaches(s) && ClientCan(s, c, act)
    ensures CancelReaches(ClientStep(s, c, act))
  {
  }

  lemma ClientKeepsAsked(s: State, c: nat, act: ClientAct)
    requires TokenInv(s) && DistinctTokens(s) && AskedInv(s) && ClientCan(s, c, act)
    ensures AskedInv(ClientStep(s, c, act))
  {
    if act.CancelStore? {
      forall d | d in s.clients && d != c && s.clients[d].HasToken()
        ensures s.clients[d].token != s.clients[c].token
      {
        assert !SameToken(s.clients[c], s.clients[d]);
      }
    }
  }

  lemma ClientKeepsReplaced(s: State, c: nat, act: ClientAct)
    requires CancelInv(s) && AskedInv(s) && ReplacedInv(s) && ClientCan(s, c, act)
    ensures ReplacedInv(ClientStep(s, c, act))
  {
  }

  lemma ClientKeepsAuthors(s: State, c: nat, act: ClientAct)
    requires CancelInv(s) && AuthorInv(s) && ClientCan(s, c, act)
    ensures AuthorInv(ClientStep(s, c, act))
  {
  }

  lemma ClientKeepsCurrent(s: State, c: nat, act: ClientAct)
    requires CurrentInv(s) && ClientCan(s, c, act)
    ensures CurrentInv(ClientStep(s, c, act))
  {
  }

  lemma ClientKeepsStop(s: State, c: nat, act: ClientAct)
    requires StopInv(s) && ClientCan(s, c, act)
    ensures StopInv(ClientStep(s, c, act))
  {
  }

  lemma ClientKeepsInv(s: State, c: nat, act: ClientAct)
    requires Inv(s) && ClientCan(s, c, act)
    ensures Inv(ClientStep(s, c, act))
  {
    ClientKeepsSlot(s, c, act);
    ClientKeepsTokens(s, c, act);
    ClientKeepsDistinct(s, c, act);
    ClientKeepsFresh(s, c, act);
    ClientKeepsCancel(s, c, act);
    ClientKeepsReach(s, c, act);
    ClientKeepsAsked(s, c, act);
    ClientKeepsReplaced(s, c, act);
    ClientKeepsAuthors(s, c, act);
    ClientKeepsCurrent(s, c, act);
    ClientKeepsStop(s, c, act);
  }

  /** What the worker leaves alone. */
  lemma WorkerFrame(s: State)
    requires WorkerCan(s)
    ensures var n := WorkerStep(s);
            && n.clients == s.clients && n.nextToken == s.nextToken
            && n.stopping == s.stopping && n.stopper == s.stopper
            && n.log.cancelAsked == s.log.cancelAsked && n.log.overwritten == s.log.overwritten
            && n.log.interrupts == s.log.interrupts
            && (n.cancelled == s.cancelled || n.cancelled == 0)
  {
  }

  lemma WorkerKeepsSlot(s: State)
    requires SlotInv(s) && WorkerCan(s)
    ensures SlotInv(WorkerStep(s))
  {
    WorkerFrame(s);
  }

  lemma WorkerKeepsTokens(s: State)
    requires TokenInv(s) && WorkerCan(s)
    ensures TokenInv(WorkerStep(s))
  {
    WorkerFrame(s);
  }

  lemma WorkerKeepsFresh(s: State)
    requires SlotInv(s) && TokenInv(s) && FreshInv(s) && WorkerCan(s)
    ensures FreshInv(WorkerStep(s))
  {
    WorkerFrame(s);
  }

  lemma WorkerKeepsCurrent(s: State)
    requires CurrentInv(s) && StopInv(s) && WorkerCan(s)
    ensures CurrentInv(WorkerStep(s)) && StopInv(WorkerStep(s))
  {
  }

  lemma WorkerKeepsCancel(s: State)
    requires TokenInv(s) && CancelInv(s) && WorkerCan(s)
    ensures CancelInv(WorkerStep(s))
  {
    WorkerFrame(s);
  }

  lemma WorkerKeepsReach(s: State)
    requires FreshInv(s) && CancelInv(s) && CancelReaches(s) && WorkerCan(s)
    ensures CancelReaches(WorkerStep(s))
  {
    WorkerFrame(s);
  }

  lemma WorkerKeepsAuthors(s: State)
    requires TokenInv(s) && CancelInv(s) && AuthorInv(s) && WorkerCan(s)
    ensures AuthorInv(WorkerStep(s))
  {
    WorkerFrame(s);
  }

  lemma WorkerKeepsAsked(s: State)
    requires DistinctTokens(s) && AskedInv(s) && ReplacedInv(s) && WorkerCan(s)
    ensures DistinctTokens(WorkerStep(s)) && AskedInv(WorkerStep(s)) && ReplacedInv(WorkerStep(s))
  {
    WorkerFrame(s);
  }

  lemma WorkerKeepsInv(s: State)
    requires Inv(s) && WorkerCan(s)
    ensures Inv(WorkerStep(s))
  {
    WorkerKeepsSlot(s);
    WorkerKeepsTokens(s);
    WorkerKeepsFresh(s);
    WorkerKeepsCurrent(s);
    WorkerKeepsCancel(s);
    WorkerKeepsReach(s);
    WorkerKeepsAuthors(s);
    WorkerKeepsAsked(s);
  }

  lemma StopperKeepsStop(s: State)
    requires CurrentInv(s) && StopInv(s) && AuthorInv(s) && !s.stopper.Notified?
    ensures StopInv(StopperStep(s)) && AuthorInv(StopperStep(s))
  {
  }

  /** What the stopping thread leaves alone. */
  lemma StopperFrame(s: State)
    requires !s.stopper.Notified?
    ensures var n := StopperStep(s);
            && n.busy == s.busy && n.nextToken == s.nextToken && n.current == s.current
            && n.cancelled == s.cancelled && n.clients == s.clients && n.worker == s.worker && n.holder == s.holder
            && n.log.cancelAsked == s.log.cancelAsked && n.log.overwritten == s.log.overwritten
            && n.log.finished == s.log.finished && n.log.refused == s.log.refused
            && s.log.interrupts <= n.log.interrupts
            && (n.queue == s.queue || (s.queue.None? && n.queue == Some(Shutdown)))
  {
  }

  lemma StopperKeepsSlot(s: State)
    requires SlotInv(s) && !s.stopper.Notified?
    ensures SlotInv(StopperStep(s))
  {
    StopperFrame(s);
  }

  lemma StopperKeepsTokens(s: State)
    requires FreshInv(s) && TokenInv(s) && DistinctTokens(s) && !s.stopper.Notified?
    ensures FreshInv(StopperStep(s)) && TokenInv(StopperStep(s)) && DistinctTokens(StopperStep(s))
  {
    StopperFrame(s);
  }

  lemma StopperKeepsCancel(s: State)
    requires CurrentInv(s) && CancelInv(s) && CancelReaches(s) && AskedInv(s) && ReplacedInv(s)
    requires !s.stopper.Notified?
    ensures var n := StopperStep(s);
            CurrentInv(n) && CancelInv(n) && CancelReaches(n) && AskedInv(n) && ReplacedInv(n)
  {
    StopperFrame(s);
  }

  lemma StopperKeepsInv(s: State)
    requires Inv(s) && !s.stopper.Notified?
    ensures Inv(StopperStep(s))
  {
    StopperKeepsStop(s);
    StopperKeepsSlot(s);
    StopperKeepsTokens(s);
    StopperKeepsCancel(s);
  }

  lemma StepKeepsInv(s: State, e: Event)
    requires Inv(s) && CanStep(s, e)
    ensures Inv(Step(s, e))
  {
    match e
    case OfClient(c, act) => ClientKeepsInv(s, c, act);
    case OfWorker => WorkerKeepsInv(s);
    case OfStopper => StopperKeepsInv(s);
  }

  lemma {:induction false} RunKeepsInv(s: State, events: seq<Event>)
    requires Inv(s) && ValidRun(s, events)
    ensures Inv(Execute(s, events))
    decreases |events|
  {
    if events == [] {
    } else {
      StepKeepsInv(s, events[0]);
      RunKeepsInv(Step(s, events[0]), events[1..]);
    }
  }

  // ----- theorems over every interleaving

  /** Requests that are reserved but unsent, queued, or in the worker's hands. */
  ghost function InFlight(s: State): set<Place>
  {
    (set c | c in s.clients && s.clients[c].HoldsSlot() :: AtClient(c))
    + (if s.queue.Some? && s.queue.value.Query? then {InQueue} else {})
    + (if s.worker.HasRequest() then {AtWorker} else {})
  }

  lemma InFlightIsHolder(s: State)
    requires SlotInv(s) && InLoop(s)
    ensures InFlight(s) == if s.busy then {s.holder.value} else {}
  {
    forall p: Place ensures p in InFlight(s) <==> s.holder == Some(p) {
      match p
      case AtClient(c) =>
      case InQueue =>
      case AtWorker =>
    }
  }

  /** Until the worker leaves its loop, `busy` is set exactly when one request is in flight, and never two are. */
  lemma BusyCountsTheOneRequest(events: seq<Event>)
    requires ValidRun(INITIAL, events)
    ensures var s := Execute(INITIAL, events);
            InLoop(s) ==> |InFlight(s)| == (if s.busy then 1 else 0)
  {
    RunKeepsInv(INITIAL, events);
    if InLoop(Execute(INITIAL, events)) {
      InFlightIsHolder(Execute(INITIAL, events));
    }
  }

  lemma RefusedSendSawShutdown(s: State, c: nat)
    requires SlotInv(s) && ClientCan(s, c, Send)
    ensures InLoop(s) && ClientStep(s, c, Send).clients[c].SendRefused? ==> s.queue == Some(Shutdown)
  {
  }

  /** While the worker is in its loop, `try_send` is Full only because of a Shutdown message. */
  lemma FullMeansShutdown(events: seq<Event>, c: nat)
    requires ValidRun(INITIAL, events)
    requires ClientCan(Execute(INITIAL, events), c, Send)
    ensures var s := Execute(INITIAL, events);
            InLoop(s) && ClientStep(s, c, Send).clients[c].SendRefused? ==> s.queue == Some(Shutdown)
  {
    RunKeepsInv(INITIAL, events);
    RefusedSendSawShutdown(Execute(INITIAL, events), c);
  }

  lemma TokensAreUnique(events: seq<Event>, c: nat, d: nat)
    requires ValidRun(INITIAL, events)
    requires var m := Execute(INITIAL, events).clients;
             c in m && d in m && c != d && m[c].HasToken() && m[d].HasToken()
    ensures var m := Execute(INITIAL, events).clients;
            m[c].token != m[d].token && m[c].token != 0 && m[d].token != 0
  {
    RunKeepsInv(INITIAL, events);
    var m := Execute(INITIAL, events).clients;
    assert !SameToken(m[c], m[d]);
  }

  /** Once `cancel_current` has returned, a query that is still running was interrupted while current. */
  lemma StopReachesRunningQuery(events: seq<Event>)
    requires ValidRun(INITIAL, events)
    ensures var s := Execute(INITIAL, events);
            s.worker.Running? && (s.stopper.CurrentCancelled? || s.stopper.Notified?)
            ==> Interrupt(ByStop, s.worker.token) in s.log.interrupts
  {
    RunKeepsInv(INITIAL, events);
  }

  /** The same for a completed `cancel`, unless another token's cancel replaced its mark. */
  lemma CancelReachesRunningQuery(events: seq<Event>, client: nat)
    requires ValidRun(INITIAL, events)
    requires client in Execute(INITIAL, events).clients
    ensures var s := Execute(INITIAL, events);
            var c := s.clients[client];
            c.CancelDone? && s.worker == Running(c.token) && c.token !in s.log.overwritten
            ==> Interrupt(ByCancel(c.token), c.token) in s.log.interrupts
  {
    RunKeepsInv(INITIAL, events);
  }

  /** A request whose cancel was stored before `begin` decides is refused exactly when no other cancel replaced it. */
  lemma BeginHonoursCancelExactly(events: seq<Event>)
    requires ValidRun(INITIAL, events)
    requires var s := Execute(INITIAL, events);
             s.worker.Admitted? && s.worker.token in s.log.cancelAsked
    ensures var s := Execute(INITIAL, events);
            WorkerStep(s).worker.Refused? <==> s.worker.token !in s.log.overwritten
  {
    RunKeepsInv(INITIAL, events);
  }

  /**
   Every refusal and every interrupt is of a token whose own cancel was asked for, or comes from the stop;
   that a cancel's interrupt meets its own token is the guard of its critical section.
   */
  lemma CancelTouchesOnlyItsToken(events: seq<Event>)
    requires ValidRun(INITIAL, events)
    ensures var s := Execute(INITIAL, events);
            && (forall i :: i in s.log.interrupts && i.cause.ByCancel? ==> i.cause.token == i.current)
            && (forall t :: t in s.log.refused ==> s.stopping || t in s.log.cancelAsked)
            && (forall i :: i in s.log.interrupts ==> s.stopping || i.current in s.log.cancelAsked)
  {
    RunKeepsInv(INITIAL, events);
  }

  /** Own steps the worker needs at most before its receiver is gone, once it must stop. */
  function StepsToGo(w: Worker): nat
  {
    match w
    case Waiting => 13
    case Taken(_) => 12
    case Marked(_) => 11
    case Admitted(_) => 10
    case Refused(_) => 9
    case RefusedCleared(_) => 8
    case Running(_) => 8
    case Ending(_) => 7
    case Cleared(_) => 6
    case Releasing(_) => 5
    case Top => 3
    case Exiting => 2
    case Exited => 1
    case Gone => 0
  }

  lemma NoticedWorkerAdvances(s: State)
    requires StopInv(s) && s.stopper.Notified? && !s.worker.Gone?
    ensures WorkerCan(s) && StepsToGo(WorkerStep(s).worker) < StepsToGo(s.worker)
  {
  }

  lemma OthersLeaveWorker(s: State, e: Event)
    requires CanStep(s, e) && !e.OfWorker?
    ensures Step(s, e).worker == s.worker
  {
  }

  /**
   After shutdown's `try_send`, successful or not, the worker is never stuck on an empty queue:
   its next step is enabled and brings it closer to exit, no other step sets it back, and it
   receives at most one more message.
   */
  lemma ShutdownCannotHang(events: seq<Event>, e: Event)
    requires ValidRun(INITIAL, events)
    requires Execute(INITIAL, events).stopper.Notified?
    ensures var s := Execute(INITIAL, events);
            && s.log.takenAfterNotice <= 1
            && (!s.worker.Gone? ==> WorkerCan(s) && StepsToGo(WorkerStep(s).worker) < StepsToGo(s.worker))
            && (CanStep(s, e) && !e.OfWorker? ==> Step(s, e).worker == s.worker)
  {
    RunKeepsInv(INITIAL, events);
    var s := Execute(INITIAL, events);
    if !s.worker.Gone? {
      NoticedWorkerAdvances(s);
    }
    if CanStep(s, e) && !e.OfWorker? {
      OthersLeaveWorker(s, e);
    }
  }

  // ----- what single steps do

  /** A new client gets the slot exactly when `busy` is not set, and then it is set. */
  lemma ClaimExactly(s: State, c: nat)
    requires c !in s.clients
    ensures ClientCan(s, c, Claim) <==> !s.busy
    ensures !s.busy ==> ClientStep(s, c, Claim).busy && ClientStep(s, c, Claim).clients == s.clients[c := Claimed]
  {
  }

  /** The other steps of a client: what each changes, and for a send and a cancel also when. */
  lemma ClientStepExactly(s: State, c: nat)
    requires c in s.clients
    ensures ClientCan(s, c, DrawToken) ==>
      ClientStep(s, c, DrawToken) == s.(nextToken := s.nextToken + 1, clients := s.clients[c := Reserved(s.nextToken)])
    ensures s.clients[c].Reserved? ==>
      var n, t := ClientStep(s, c, Send), s.clients[c].token;
      if s.queue.None? && !s.worker.Gone? then n.queue == Some(Query(t)) && n.clients == s.clients[c := Sent(t)]
      else n.queue == s.queue && n.clients == s.clients[c := SendRefused(t)] && n.busy == s.busy
    ensures s.clients[c].Sent? ==>
      && ClientStep(s, c, Leave) == s.(clients := s.clients[c := Left])
      && ClientStep(s, c, CancelStore).cancelled == s.clients[c].token
      && ClientStep(s, c, CancelStore).clients == s.clients[c := CancelStored(s.clients[c].token)]
    ensures s.clients[c].CancelStored? ==>
      var n, t := ClientStep(s, c, CancelLock), s.clients[c].token;
      && n.clients == s.clients[c := CancelDone(t)]
      && n.log.interrupts == s.log.interrupts + (if s.current == Some(t) then {Interrupt(ByCancel(t), t)} else {})
  {
  }

  /** `finish` removes the mark of its own token and no other. */
  lemma FinishExactly(s: State)
    requires s.worker.Cleared? || s.worker.RefusedCleared?
    ensures WorkerStep(s).cancelled == if s.cancelled == s.worker.token then 0 else s.cancelled
    ensures s.worker.token in WorkerStep(s).log.finished
  {
  }

  predicate IsClaim(e: Event)
  {
    e.OfClient? && e.act.Claim?
  }

  lemma {:induction false} OnlyClaimsSetBusy(s: State, events: seq<Event>)
    requires !s.busy && ValidRun(s, events) && forall i :: 0 <= i < |events| ==> !IsClaim(events[i])
    ensures !Execute(s, events).busy
    decreases |events|
  {
    if events == [] {
    } else {
      assert !IsClaim(events[0]);
      BusyNeedsClaim(s, events[0]);
      assert forall i :: 0 <= i < |events| - 1 ==> events[1..][i] == events[i + 1];
      OnlyClaimsSetBusy(Step(s, events[0]), events[1..]);
    }
  }

  lemma BusyNeedsClaim(s: State, e: Event)
    requires !s.busy && CanStep(s, e) && !IsClaim(e)
    ensures !Step(s, e).busy
  {
  }

  /**
   The worker's last store frees the slot: whatever happens after it, `busy` is set only if a client claimed
   the slot after that, and until then a new client can.
   */
  lemma ExitFreesTheSlot(before: seq<Event>, after: seq<Event>, c: nat)
    requires ValidRun(INITIAL, before) && Execute(INITIAL, before).worker.Exiting?
    requires ValidRun(WorkerStep(Execute(INITIAL, before)), after)
    requires forall i :: 0 <= i < |after| ==> !IsClaim(after[i])
    ensures var s := Execute(WorkerStep(Execute(INITIAL, before)), after);
            !s.busy && (c !in s.clients ==> ClientCan(s, c, Claim))
  {
    OnlyClaimsSetBusy(WorkerStep(Execute(INITIAL, before)), after);
  }

  lemma {:induction false} RunExtends(s: State, events: seq<Event>, e: Event)
    requires ValidRun(s, events) && CanStep(Execute(s, events), e)
    ensures ValidRun(s, events + [e])
    ensures Execute(s, events + [e]) == Step(Execute(s, events), e)
    decreases |events|
  {
    if events == [] {
      assert ([] + [e])[1..] == [];
    } else {
      assert (events + [e])[1..] == events[1..] + [e];
      RunExtends(Step(s, events[0]), events[1..], e);
    }
  }

  ghost predicate Reachable(s: State)
  {
    exists events :: ValidRun(INITIAL, events) && Execute(INITIAL, events) == s
  }

  lemma ReachStep(s: State, e: Event) returns (next: State)
    requires Reachable(s) && CanStep(s, e)
    ensures next == Step(s, e) && Reachable(next)
  {
    var events :| ValidRun(INITIAL, events) && Execute(INITIAL, events) == s;
    RunExtends(INITIAL, events, e);
    next := Step(s, e);
  }

  /** A new client's request reaches the queue. */
  lemma ReachSent(s: State, c: nat) returns (r: State)
    requires Reachable(s) && c !in s.clients && !s.busy && s.queue.None? && s.worker.Top?
    requires s.nextToken + 1 < U64_SPAN
    ensures Reachable(r)
    ensures r == s.(busy := true, nextToken := s.nextToken + 1, queue := Some(Query(s.nextToken)),
                    clients := s.clients[c := Sent(s.nextToken)], holder := Some(InQueue))
  {
    r := ReachStep(s, OfClient(c, Claim));
    r := ReachStep(r, OfClient(c, DrawToken));
    r := ReachStep(r, OfClient(c, Send));
  }

  /** The worker takes the queued request and `begin` returns true. */
  lemma ReachRunning(s: State) returns (r: State)
    requires Reachable(s) && s.worker.Top? && !s.stopping && s.stopper.NotStopping?
    requires s.queue.Some? && s.queue.value.Query? && s.queue.value.token != s.cancelled
    ensures Reachable(r)
    ensures r == s.(queue := None, current := Some(s.queue.value.token),
                    worker := Running(s.queue.value.token), holder := Some(AtWorker))
  {
    r := ReachStep(s, OfWorker);
    r := ReachStep(r, OfWorker);
    r := ReachStep(r, OfWorker);
    r := ReachStep(r, OfWorker);
    r := ReachStep(r, OfWorker);
  }

  /** `finish` clears the current token. */
  lemma ReachCleared(s: State) returns (r: State)
    requires Reachable(s) && s.worker.Running? && s.current == Some(s.worker.token)
    ensures Reachable(r)
    ensures r == s.(current := None, worker := Cleared(s.worker.token))
  {
    r := ReachStep(s, OfWorker);
    r := ReachStep(r, OfWorker);
  }

  /** `finish` meets no mark, and the slot is released. */
  lemma ReachReleased(s: State) returns (r: State)
    requires Reachable(s) && s.worker.Cleared? && s.cancelled == 0
    ensures Reachable(r)
    ensures r == s.(busy := false, worker := Top, holder := None,
                    log := s.log.(finished := s.log.finished + {s.worker.token}))
  {
    r := ReachStep(s, OfWorker);
    r := ReachStep(r, OfWorker);
  }

  /** The worker finishes the running request. */
  lemma ReachIdle(s: State) returns (r: State)
    requires Reachable(s) && s.worker.Running? && s.current == Some(s.worker.token) && s.cancelled == 0
    ensures Reachable(r)
    ensures r == s.(busy := false, current := None, worker := Top, holder := None,
                    log := s.log.(finished := s.log.finished + {s.worker.token}))
  {
    r := ReachCleared(s);
    r := ReachReleased(r);
  }

  /**
   A late cancel of request 1 replaces the mark of request 2 before `begin` reads it: request 2
   runs although its cancel returned. The proviso of `CancelReachesRunningQuery` is needed.
   */
  lemma CancelCanBeLost() returns (s: State)
    ensures Reachable(s)
    ensures 2 in s.clients && s.clients[2] == CancelDone(2) && s.worker == Running(2) && s.log.interrupts == {}
  {
    s := INITIAL;
    assert ValidRun(s, []) && Execute(s, []) == s;
    s := ReachSent(s, 1);
    s := ReachRunning(s);
    s := ReachIdle(s);
    s := ReachSent(s, 2);
    s := ReachStep(s, OfClient(2, CancelStore));
    s := ReachStep(s, OfClient(2, CancelLock));
    s := ReachStep(s, OfClient(1, CancelStore));
    s := ReachRunning(s);
  }
}
