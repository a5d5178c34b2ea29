/**
 Profile edits and transfer enqueues interleaved over the profile store and the transfer queue.

 Enqueue and every profile edit hold `profile_transfer_gate` from before their first read until
 after their last write; the gate's holder is therefore the only one in the middle of an
 operation. One step is one critical section: taking the gate, one call of the profile store, one
 call of the transfer executor. The queue before the runner starts is the persisted queue.
 */
module ProfileGate {
  import opened Wrappers
  import opened ProfileStore

  datatype TransferTask = TransferTask(profile: nat, protocol: Protocol)

  /** Where the holder of the gate stands. */
  datatype Holder =
    | Enqueuing(id: nat)
    | Loaded(id: nat, protocol: Protocol)
    | Editing(command: Command)
    | Checked(command: Command, inTransfer: bool)

  /** Before it starts, the runner's references are a snapshot taken when the daemon came up. */
  datatype Runner = Inactive(references: Option<set<nat>>) | Active

  datatype State = State(gate: Option<Holder>, rows: Table, queue: map<nat, TransferTask>, runner: Runner)

  datatype Event =
    | TakeForEnqueue(id: nat)
    | LoadProfile
    | EnqueueTask(task: nat)
    | TakeForEdit(command: Command)
    | CheckReferences
    | ExecuteEdit
    | GiveUp                       // any refusal between taking the gate and the last write
    | StartRunner
    | ForgetTask(task: nat)        // the executor may drop a task at any time

  predicate InQueue(queue: map<nat, TransferTask>, id: nat)
  {
    exists t :: t in queue && queue[t].profile == id
  }

  predicate CanStep(s: State, e: Event)
  {
    match e
    case TakeForEnqueue(_) => s.gate.None?
    case LoadProfile =>
      // load_profile fails on a missing or unreadable row
      s.gate.Some? && s.gate.value.Enqueuing? && s.gate.value.id in s.rows && Readable(s.rows[s.gate.value.id])
    case EnqueueTask(t) => s.gate.Some? && s.gate.value.Loaded? && s.runner.Active? && t !in s.queue
    case TakeForEdit(_) => s.gate.None?
    case CheckReferences =>
      s.gate.Some? && s.gate.value.Editing? && (s.runner.Active? || s.runner.references.Some?)
    case ExecuteEdit => s.gate.Some? && s.gate.value.Checked?
    case GiveUp => s.gate.Some?
    case StartRunner => s.runner.Inactive?
    case ForgetTask(t) => t in s.queue
  }

  function Step(s: State, e: Event): State
    requires CanStep(s, e)
  {
    match e
    case TakeForEnqueue(id) => s.(gate := Some(Enqueuing(id)))
    case LoadProfile => s.(gate := Some(Loaded(s.gate.value.id, s.rows[s.gate.value.id].profile.protocol)))
    case EnqueueTask(t) =>
      s.(gate := None, queue := s.queue[t := TransferTask(s.gate.value.id, s.gate.value.protocol)])
    case TakeForEdit(c) => s.(gate := Some(Editing(c)))
    case CheckReferences =>
      var id := s.gate.value.command.Target();
      s.(gate := Some(Checked(s.gate.value.command,
                              if s.runner.Active? then InQueue(s.queue, id) else id in s.runner.references.value)))
    case ExecuteEdit => s.(gate := None, rows := Apply(s.rows, s.gate.value.command, s.gate.value.inTransfer))
    case GiveUp => s.(gate := None)
    case StartRunner => s.(runner := Active)
    case ForgetTask(t) => s.(queue := s.queue - {t})
  }

  predicate ValidRun(s: State, events: seq<Event>)
    decreases |events|
  {
    events == [] || (CanStep(s, events[0]) && ValidRun(Step(s, events[0]), events[1..]))
  }

  function Execute(s: State, events: seq<Event>): State
    requires ValidRun(s, events)
    decreases |events|
  {
    if events == [] then s else Execute(Step(s, events[0]), events[1..])
  }

  /** Every queued task's profile is in the store with the protocol the task was built with. */
  ghost predicate TasksHaveProfiles(rows: Table, queue: map<nat, TransferTask>)
  {
    forall t :: t in queue ==>
      queue[t].profile in rows && rows[queue[t].profile].profile.protocol == queue[t].protocol
  }

  /** What the gate's holder has read is still true. */
  ghost predicate HolderInv(s: State)
  {
    s.gate.Some? ==>
      match s.gate.value
      case Enqueuing(_) => true
      case Loaded(id, protocol) => id in s.rows && s.rows[id].profile.protocol == protocol
      case Editing(_) => true
      case Checked(c, inTransfer) => !inTransfer ==> !InQueue(s.queue, c.Target())
  }

  ghost predicate SnapshotInv(s: State)
  {
    s.runner.Inactive? && s.runner.references.Some? ==>
      forall t :: t in s.queue ==> s.queue[t].profile in s.runner.references.value
  }

  ghost predicate Inv(s: State)
  {
    TasksHaveProfiles(s.rows, s.queue) && HolderInv(s) && SnapshotInv(s)
  }

  /** An edit that saw no reference to its profile cannot strand a task of another profile either. */
  lemma EditKeepsTasks(rows: Table, queue: map<nat, TransferTask>, c: Command, inTransfer: bool)
    requires TasksHaveProfiles(rows, queue) && (!inTransfer ==> !InQueue(queue, c.Target()))
    ensures TasksHaveProfiles(Apply(rows, c, inTransfer), queue)
  {
  }

  lemma StepKeepsInv(s: State, e: Event)
    requires Inv(s) && CanStep(s, e)
    ensures Inv(Step(s, e))
  {
    if e.ExecuteEdit? {
      EditKeepsTasks(s.rows, s.queue, s.gate.value.command, s.gate.value.inTransfer);
    } else if e.ForgetTask? && s.gate.Some? && s.gate.value.Checked? {
      assert forall t :: t in s.queue - {e.task} ==> t in s.queue;
    }
  }

  /**
   From a start whose persisted tasks have their profiles and whose snapshot covers them, every
   interleaving keeps every queued task's profile present with the task's protocol.
   */
  lemma {:induction false} QueuedTasksKeepTheirProfiles(s: State, events: seq<Event>)
    requires Inv(s) && ValidRun(s, events)
    ensures TasksHaveProfiles(Execute(s, events).rows, Execute(s, events).queue)
    decreases |events|
  {
    if events == [] {
    } else {
      StepKeepsInv(s, events[0]);
      QueuedTasksKeepTheirProfiles(Step(s, events[0]), events[1..]);
    }
  }

  // ----- whole operations

  /** An enqueue on a free gate, for a readable profile and an active runner, queues exactly one task built from it. */
  lemma EnqueueQueues(s: State, id: nat, t: nat)
    requires s.gate.None? && s.runner.Active? && t !in s.queue && id in s.rows && Readable(s.rows[id])
    ensures var steps := [TakeForEnqueue(id), LoadProfile, EnqueueTask(t)];
      && ValidRun(s, steps)
      && Execute(s, steps) == s.(queue := s.queue[t := TransferTask(id, s.rows[id].profile.protocol)])
  {
    var s1 := Step(s, TakeForEnqueue(id));
    var s2 := Step(s1, LoadProfile);
    var steps := [TakeForEnqueue(id), LoadProfile, EnqueueTask(t)];
    assert steps[1..] == [LoadProfile, EnqueueTask(t)] && steps[1..][1..] == [EnqueueTask(t)];
    assert steps[1..][1..][1..] == [];
    assert ValidRun(Step(s2, EnqueueTask(t)), []);
    assert ValidRun(s2, [EnqueueTask(t)]) && Execute(s2, [EnqueueTask(t)]) == Step(s2, EnqueueTask(t));
    assert ValidRun(s1, [LoadProfile, EnqueueTask(t)]);
    assert Execute(s1, [LoadProfile, EnqueueTask(t)]) == Step(s2, EnqueueTask(t));
  }

  /** An enqueue of a missing or unreadable profile cannot go on; it can only give up, and queues nothing. */
  lemma EnqueueNeedsProfile(s: State, id: nat)
    requires s.gate.None? && (id !in s.rows || !Readable(s.rows[id]))
    ensures var taken := Step(s, TakeForEnqueue(id));
      && !CanStep(taken, LoadProfile) && (forall t :: !CanStep(taken, EnqueueTask(t)))
      && CanStep(taken, GiveUp) && Step(taken, GiveUp) == s
  {
  }

  /** An edit on a free gate is applied with the true answer to whether the active queue uses its profile. */
  lemma EditApplies(s: State, c: Command)
    requires s.gate.None? && s.runner.Active?
    ensures var steps := [TakeForEdit(c), CheckReferences, ExecuteEdit];
      && ValidRun(s, steps)
      && Execute(s, steps) == s.(rows := Apply(s.rows, c, InQueue(s.queue, c.Target())))
  {
    var s1 := Step(s, TakeForEdit(c));
    var s2 := Step(s1, CheckReferences);
    var steps := [TakeForEdit(c), CheckReferences, ExecuteEdit];
    assert steps[1..] == [CheckReferences, ExecuteEdit] && steps[1..][1..] == [ExecuteEdit];
    assert steps[1..][1..][1..] == [];
    assert ValidRun(Step(s2, ExecuteEdit), []);
    assert ValidRun(s2, [ExecuteEdit]);
    assert ValidRun(s1, [CheckReferences, ExecuteEdit]);
  }

  /** Starting the runner makes its queue the one consulted; a forgotten task leaves the queue. */
  lemma OtherStepsExactly(s: State, t: nat)
    ensures s.runner.Inactive? ==> CanStep(s, StartRunner) && Step(s, StartRunner) == s.(runner := Active)
    ensures t in s.queue ==> CanStep(s, ForgetTask(t)) && Step(s, ForgetTask(t)) == s.(queue := s.queue - {t})
  {
  }

  /** While one operation holds the gate no other can take it. */
  lemma GateExcludes(s: State, id: nat, c: Command)
    ensures CanStep(s, TakeForEnqueue(id)) <==> s.gate.None?
    ensures CanStep(s, TakeForEdit(c)) <==> s.gate.None?
  {
  }
}
