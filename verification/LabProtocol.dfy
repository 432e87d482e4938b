/**
 The lab operation protocol: the monitor of one user's lab, the lock around its
 `_operation` slot, and everybody who races for it (creates, deletes, the reaper and
 the reconciler).

 One step of the transition system is the code between two points where the program
 can really suspend. `asyncio.Lock` is a FIFO queue with no barging. Operations are
 numbered by their position in `tasks`, so a number is never used twice.

 `Request.seen`, `Task.finishedAt` and `Task.removedBy` are history: no guard reads them.
 */
module LabProtocol {
  import opened Wrappers

  datatype Kind = Spawn | Delete

  datatype Phase = Unstarted | Running | Finished

  /** Who emptied the operation slot: somebody in `wait`, or somebody in `cancel`. */
  datatype Remover = Waiter | Canceller

  /** The background task of one operation together with the operation's `complete` event. */
  datatype Task = Task(
    kind: Kind,
    phase: Phase,
    cancelAsked: bool,
    cancelled: bool,
    complete: bool,
    finishedAt: nat,
    removedBy: Option<Remover>)

  /** A delete that started its own operation, a delete that joined one, or the reaper. */
  datatype Role = Owner | Joiner | Reaper

  /** What a caller wants the lock for. `Peek` and `Clear` are the two halves of `wait`. */
  datatype Action =
    | Cancel
    | Install(kind: Kind)
    | Peek(role: Role)
    | Clear(role: Role, op: nat)

  datatype Request = Request(action: Action, seen: nat)

  /** A caller suspended on the `complete` event of operation `op`. */
  datatype Sleeper = Sleeper(role: Role, op: nat)

  datatype Lab = Lab(
    op: Option<nat>,
    tasks: seq<Task>,
    holder: Option<Request>,
    queue: seq<Request>,
    sleepers: seq<Sleeper>,
    lastModified: nat,
    clock: nat)
  {
    /** Grows by one whenever an operation is installed or removed. */
    function Epoch(): int {
      2 * |tasks| - (if op.Some? then 1 else 0)
    }

    function Busy(): Option<Kind> {
      if op.Some? && op.value < |tasks| then Some(tasks[op.value].kind) else None
    }

    /** `_State.modified_since` */
    predicate ModifiedSince(date: nat) {
      op.Some? || lastModified > date
    }
  }

  datatype Step =
    | CreateArrives
    | DeleteArrives
    | ReaperArrives
    | Grant
    | CancelDone(stateGone: bool)
    | ClearDone
    | Wake(index: nat)
    | TaskStarts(op: nat)
    | TaskFinishes(op: nat, cancelled: bool)

  predicate IsArrival(step: Step) {
    step.CreateArrives? || step.DeleteArrives? || step.ReaperArrives?
  }

  const NEW: Lab := Lab(None, [], None, [], [], 0, 0)

  function FreshTask(kind: Kind): Task {
    Task(kind, Unstarted, false, false, false, 0, None)
  }

  // ----- the steps

  /** Callers check `in_progress` and queue for the lock without suspending in between. */
  predicate Enabled(s: Lab, step: Step) {
    match step
    case CreateArrives => s.op.None?
    case DeleteArrives => true
    case ReaperArrives => s.op.Some? && s.op.value < |s.tasks| && s.tasks[s.op.value].phase.Finished?
    case Grant => s.holder.None? && s.queue != []
    case CancelDone(_) =>
      && s.holder.Some? && s.holder.value.action.Cancel?
      && (s.op.Some? ==> s.op.value < |s.tasks| && s.tasks[s.op.value].phase.Finished?)
    case ClearDone =>
      && s.holder.Some? && s.holder.value.action.Clear?
      && s.holder.value.action.op < |s.tasks| && s.tasks[s.holder.value.action.op].phase.Finished?
    case Wake(i) => i < |s.sleepers| && s.sleepers[i].op < |s.tasks| && s.tasks[s.sleepers[i].op].complete
    case TaskStarts(k) => k < |s.tasks| && s.tasks[k].phase.Unstarted? && !s.tasks[k].cancelAsked
    case TaskFinishes(k, cancelled) =>
      && k < |s.tasks| && !s.tasks[k].phase.Finished?
      && (cancelled ==> s.tasks[k].cancelAsked)
      && (s.tasks[k].phase.Unstarted? ==> cancelled)
  }

  /** A caller goes to the end of the lock's queue. */
  function Queued(s: Lab, action: Action): (t: Lab)
    requires s.Epoch() >= 0
    ensures t.clock == s.clock
  {
    s.(queue := s.queue + [Request(action, s.Epoch())])
  }

  /** What `delete_lab` asks for, by the operation it sees in progress. */
  function DeleteRequest(busy: Option<Kind>): Action {
    match busy
    case Some(Delete) => Peek(Joiner)
    case Some(Spawn) => Cancel
    case None => Install(Delete)
  }

  function SetTask(s: Lab, k: nat, task: Task): (t: Lab)
    requires k < |s.tasks|
    ensures t.clock == s.clock
  {
    s.(tasks := s.tasks[k := task])
  }

  /**
   The head of the queue gets the lock. `monitor` and the first half of `wait` finish
   their critical section without suspending; `cancel` and the second half of `wait`
   may suspend while holding the lock.
   */
  function Granted(s: Lab): (t: Lab)
    requires s.holder.None? && s.queue != []
    requires s.op.Some? ==> s.op.value < |s.tasks|
    ensures t.clock == s.clock
  {
    var r, rest := s.queue[0], s.(queue := s.queue[1..]);
    match r.action
    case Install(kind) =>
      if s.op.Some? then rest
      else
        var installed := rest.(op := Some(|s.tasks|), tasks := s.tasks + [FreshTask(kind)]);
        if kind.Delete? then Queued(installed, Peek(Owner)) else installed
    case Peek(role) =>
      if s.op.None? then rest else rest.(sleepers := s.sleepers + [Sleeper(role, s.op.value)])
    case Clear(_, _) => rest.(holder := Some(r))
    case Cancel =>
      var held := rest.(holder := Some(r));
      if s.op.None? || s.tasks[s.op.value].phase.Finished? then held
      else SetTask(held, s.op.value, s.tasks[s.op.value].(cancelAsked := true))
  }

  /** The current operation leaves the slot. */
  function Removed(s: Lab, remover: Remover): (t: Lab)
    requires s.op.Some? && s.op.value < |s.tasks|
    ensures t.clock == s.clock
  {
    SetTask(s, s.op.value, s.tasks[s.op.value].(removedBy := Some(remover))).(op := None)
  }

  /** The lock is free again and the slot is empty. */
  function Emptied(s: Lab, remover: Remover): (t: Lab)
    requires s.op.Some? ==> s.op.value < |s.tasks|
    ensures t.clock == s.clock
  {
    var freed := s.(holder := None);
    if s.op.Some? then Removed(freed, remover) else freed
  }

  /** `delete_lab` goes straight from the end of `cancel` to asking for its own operation. */
  function CancelFinished(s: Lab, stateGone: bool): (t: Lab)
    requires Enabled(s, CancelDone(stateGone))
    ensures t.clock == s.clock
  {
    var emptied := Emptied(s, Canceller);
    if stateGone then emptied else Queued(emptied, Install(Delete))
  }

  /** The end of `wait`, and for its two stamping callers the `last_modified` update that follows it. */
  function ClearFinished(s: Lab): (t: Lab)
    requires Enabled(s, ClearDone)
    ensures t.clock == s.clock
  {
    var a := s.holder.value.action;
    if s.tasks[a.op].cancelled then s.(holder := None)
    else
      var waited := if s.op == Some(a.op) then Emptied(s, Waiter) else s.(holder := None);
      if a.role.Joiner? then waited else waited.(lastModified := s.clock + 1)
  }

  /** A caller whose operation has signalled `complete` goes back to the lock. */
  function Woken(s: Lab, index: nat): (t: Lab)
    requires s.Epoch() >= 0 && index < |s.sleepers|
    ensures t.clock == s.clock
  {
    var w := s.sleepers[index];
    Queued(s.(sleepers := s.sleepers[..index] + s.sleepers[index + 1..]), Clear(w.role, w.op))
  }

  /** The `finally` of `_monitor_operation` signals whatever operation is in the slot. */
  function TaskFinished(s: Lab, k: nat, cancelled: bool): (t: Lab)
    requires Enabled(s, TaskFinishes(k, cancelled))
    ensures t.clock == s.clock
  {
    var done := s.tasks[k].(phase := Finished, cancelled := cancelled, finishedAt := s.clock + 1);
    var ended := SetTask(s, k, done);
    if s.tasks[k].phase.Unstarted? || s.op.None? || s.op.value >= |s.tasks| then ended
    else SetTask(ended, s.op.value, ended.tasks[s.op.value].(complete := true))
  }

  /** The system after a step; the clock is strictly increasing. */
  function Apply(s: Lab, step: Step): Lab
    requires s.op.Some? ==> s.op.value < |s.tasks|
    requires Enabled(s, step)
  {
    var next :=
      match step
      case CreateArrives => Queued(s, Install(Spawn))
      case DeleteArrives => Queued(s, DeleteRequest(s.Busy()))
      case ReaperArrives => Queued(s, Peek(Reaper))
      case Grant => Granted(s)
      case CancelDone(stateGone) => CancelFinished(s, stateGone)
      case ClearDone => ClearFinished(s)
      case Wake(i) => Woken(s, i)
      case TaskStarts(k) => SetTask(s, k, s.tasks[k].(phase := Running))
      case TaskFinishes(k, cancelled) => TaskFinished(s, k, cancelled);
    next.(clock := s.clock + 1)
  }

  predicate Moves(s: Lab, step: Step, t: Lab) {
    && (s.op.Some? ==> s.op.value < |s.tasks|)
    && Enabled(s, step)
    && t == Apply(s, step)
  }

  /** The states of a run, from a lab nobody has touched yet. */
  predicate Run(states: seq<Lab>, steps: seq<Step>) {
    && |states| == |steps| + 1
    && states[0] == NEW
    && forall i {:trigger steps[i]} | 0 <= i < |steps| :: Moves(states[i], steps[i], states[i + 1])
  }

  /** What the holder of the lock awaits, if it awaits anything, is over. */
  predicate AwaitOver(s: Lab) {
    && s.holder.Some?
    && (match s.holder.value.action
        case Clear(_, k) => k < |s.tasks| && s.tasks[k].phase.Finished?
        case _ => s.op.Some? ==> s.op.value < |s.tasks| && s.tasks[s.op.value].phase.Finished?)
  }

  /** The operation in the slot has signalled. */
  predicate HasSignalled(s: Lab) {
    s.op.Some? && s.op.value < |s.tasks| && s.tasks[s.op.value].complete
  }

  /**
   Between these two steps nobody got ahead of a caller that does not suspend: one that holds
   the lock with nothing to await, one that asks for a free lock with nobody queued, and one
   that starts to wait for an operation that has already signalled.
   */
  predicate PromptAfter(s: Lab, step: Step, t: Lab, next: Step) {
    && (AwaitOver(t) ==> next == ClearDone || next.CancelDone?)
    && (t.holder.None? && |t.queue| == 1 && |s.queue| == (if step == Grant then 1 else 0) ==> next == Grant)
    && (step == Grant && s.queue != [] && s.queue[0].action.Peek? && HasSignalled(s) ==> next == Wake(|s.sleepers|))
  }

  /** A run that the event loop can make as it is. */
  predicate Prompt(states: seq<Lab>, steps: seq<Step>)
    requires |states| == |steps| + 1
  {
    forall i {:trigger steps[i]} | 0 <= i < |steps| - 1 :: PromptAfter(states[i], steps[i], states[i + 1], steps[i + 1])
  }

  // ----- the invariant

  /** The operation a request with an odd `seen` saw in the slot. */
  function SeenOp(r: Request): int {
    (r.seen - 1) / 2
  }

  /** Only a started operation ends by signalling `complete`; a delete is never cancelled. */
  ghost predicate TaskOk(t: Task) {
    && (t.complete ==> t.phase.Finished?)
    && (t.phase.Finished? && !t.complete ==> t.cancelled)
    && (t.cancelled ==> t.cancelAsked)
    && (t.kind.Delete? ==> !t.cancelAsked)
  }

  /** Every operation but the current one has finished and has been removed. */
  ghost predicate TasksOk(s: Lab) {
    && (s.op.Some? ==> s.op.value == |s.tasks| - 1)
    && (forall k | 0 <= k < |s.tasks| :: TaskOk(s.tasks[k]))
    && (forall k | 0 <= k < |s.tasks| ::
          if s.op == Some(k) then s.tasks[k].removedBy.None?
          else s.tasks[k].phase.Finished? && s.tasks[k].removedBy.Some?)
    && (s.op.Some? && s.tasks[s.op.value].cancelAsked ==> s.holder.Some? && s.holder.value.action.Cancel?)
  }

  /** What a request's author knew when it queued, and how far the slot can have moved since. */
  ghost predicate RequestOk(s: Lab, r: Request) {
    && r.seen <= s.Epoch() <= r.seen + 1
    && (match r.action
        case Install(_) => r.seen % 2 == 0
        case Cancel => r.seen % 2 == 1 && s.tasks[SeenOp(r)].kind.Spawn?
        case Peek(role) =>
          && r.seen % 2 == 1
          && (if role.Reaper? then s.tasks[SeenOp(r)].phase.Finished? else s.tasks[SeenOp(r)].kind.Delete?)
        case Clear(role, k) =>
          && 2 * k + 1 <= r.seen
          && s.tasks[k].complete && !s.tasks[k].cancelled
          && (role.Reaper? || s.tasks[k].kind.Delete?))
  }

  ghost predicate LockOk(s: Lab) {
    && (s.holder.Some? ==> RequestOk(s, s.holder.value) && (s.holder.value.action.Cancel? || s.holder.value.action.Clear?))
    && (forall i | 0 <= i < |s.queue| :: RequestOk(s, s.queue[i]))
    && (forall i, j | 0 <= i < j < |s.queue| :: s.queue[i].seen <= s.queue[j].seen)
    && (s.holder.Some? ==> forall i | 0 <= i < |s.queue| :: s.holder.value.seen <= s.queue[i].seen)
  }

  /** A delete that has just started its operation is ahead of everybody who saw that operation. */
  ghost predicate OwnersOk(s: Lab) {
    forall i | 0 <= i < |s.queue| && s.queue[i].action == Peek(Owner) ::
      && s.queue[i].seen == s.Epoch()
      && (forall j | 0 <= j < i :: s.queue[j].seen < s.Epoch())
      && (s.holder.Some? ==> s.holder.value.seen < s.Epoch())
  }

  ghost predicate SleeperOk(s: Lab, w: Sleeper) {
    && w.op < |s.tasks|
    && (if w.role.Reaper? then s.tasks[w.op].complete && !s.tasks[w.op].cancelled else s.tasks[w.op].kind.Delete?)
  }

  ghost predicate ClockOk(s: Lab) {
    && s.lastModified <= s.clock
    && forall k | 0 <= k < |s.tasks| ::
         && s.tasks[k].finishedAt <= s.clock
         && (s.tasks[k].kind.Spawn? && s.tasks[k].removedBy == Some(Waiter) ==> s.tasks[k].finishedAt < s.lastModified)
  }

  ghost predicate Inv(s: Lab) {
    && TasksOk(s)
    && LockOk(s)
    && OwnersOk(s)
    && (forall i | 0 <= i < |s.sleepers| :: SleeperOk(s, s.sleepers[i]))
    && ClockOk(s)
  }
}
