/** Every step of the lab operation protocol keeps its invariant. */
module LabProtocolInvariant {
  import opened Wrappers
  import opened LabProtocol

  /** Requests survive a step that moves the slot by at most what they tolerate and keeps their tasks. */
  lemma RequestKept(s: Lab, t: Lab, r: Request)
    requires RequestOk(s, r) && s.Epoch() <= t.Epoch() <= r.seen + 1
    requires |s.tasks| <= |t.tasks|
    requires forall k | 0 <= k < |s.tasks| ::
               && t.tasks[k].kind == s.tasks[k].kind
               && (s.tasks[k].phase.Finished? ==> t.tasks[k].phase.Finished? && t.tasks[k].cancelled == s.tasks[k].cancelled)
               && (s.tasks[k].complete ==> t.tasks[k].complete && t.tasks[k].phase.Finished?)
    requires forall k | 0 <= k < |s.tasks| :: TaskOk(s.tasks[k])
    ensures RequestOk(t, r)
  {
  }

  lemma QueuedKeeps(s: Lab, action: Action)
    requires Inv(s) && RequestOk(s, Request(action, s.Epoch()))
    requires action == Peek(Owner) ==>
               && (forall j | 0 <= j < |s.queue| :: s.queue[j].seen < s.Epoch())
               && (s.holder.Some? ==> s.holder.value.seen < s.Epoch())
    ensures Inv(Queued(s, action))
  {
    var t := Queued(s, action);
    assert t.Epoch() == s.Epoch();
    forall i | 0 <= i < |t.queue| ensures RequestOk(t, t.queue[i]) {
      assert i < |s.queue| ==> RequestOk(s, s.queue[i]);
    }
    forall i | 0 <= i < |t.sleepers| ensures SleeperOk(t, t.sleepers[i]) {
      assert SleeperOk(s, s.sleepers[i]);
    }
  }

  lemma Tick(s: Lab)
    requires Inv(s)
    ensures Inv(s.(clock := s.clock + 1))
  {
    var t := s.(clock := s.clock + 1);
    forall i | 0 <= i < |t.queue| ensures RequestOk(t, t.queue[i]) {
      assert RequestOk(s, s.queue[i]);
    }
    forall i | 0 <= i < |t.sleepers| ensures SleeperOk(t, t.sleepers[i]) {
      assert SleeperOk(s, s.sleepers[i]);
    }
  }

  lemma SlotInRange(s: Lab)
    requires Inv(s)
    ensures s.Epoch() >= 0 && (s.op.Some? ==> s.op.value < |s.tasks|)
  {
  }

  lemma InitKeeps()
    ensures Inv(NEW)
  {
  }

  /** What an arriving caller asks for. */
  function ArrivalRequest(s: Lab, step: Step): Action
    requires IsArrival(step)
  {
    match step
    case CreateArrives => Install(Spawn)
    case DeleteArrives => DeleteRequest(s.Busy())
    case _ => Peek(Reaper)
  }

  lemma ArrivalRequestOk(s: Lab, step: Step)
    requires Inv(s) && Enabled(s, step) && IsArrival(step)
    ensures s.Epoch() >= 0 && RequestOk(s, Request(ArrivalRequest(s, step), s.Epoch()))
  {
  }

  lemma ArrivalKeeps(s: Lab, step: Step)
    requires Inv(s) && Enabled(s, step) && IsArrival(step)
    ensures Inv(Apply(s, step))
  {
    hide Inv, RequestOk, Granted, CancelFinished, ClearFinished, TaskFinished, Woken;
    SlotInRange(s);
    ArrivalRequestOk(s, step);
    QueuedKeeps(s, ArrivalRequest(s, step));
    Tick(Queued(s, ArrivalRequest(s, step)));
  }

  /** Taking the head off the queue while nobody holds the lock. */
  lemma DequeueKeeps(s: Lab)
    requires Inv(s) && s.holder.None? && s.queue != []
    ensures Inv(s.(queue := s.queue[1..]))
  {
    var t := s.(queue := s.queue[1..]);
    assert forall i | 0 <= i < |t.queue| :: t.queue[i] == s.queue[i + 1];
    forall i | 0 <= i < |t.queue| ensures RequestOk(t, t.queue[i]) {
      assert RequestOk(s, s.queue[i + 1]);
    }
    forall i | 0 <= i < |t.sleepers| ensures SleeperOk(t, t.sleepers[i]) {
      assert SleeperOk(s, s.sleepers[i]);
    }
  }

  /** A new operation enters the empty slot. */
  lemma InstalledKeeps(s: Lab, kind: Kind)
    requires Inv(s) && s.op.None? && s.holder.None?
    requires forall i | 0 <= i < |s.queue| :: s.queue[i].seen == s.Epoch()
    ensures Inv(s.(op := Some(|s.tasks|), tasks := s.tasks + [FreshTask(kind)]))
  {
    var t := s.(op := Some(|s.tasks|), tasks := s.tasks + [FreshTask(kind)]);
    forall i | 0 <= i < |t.queue| ensures RequestOk(t, t.queue[i]) {
      RequestKept(s, t, s.queue[i]);
    }
    forall i | 0 <= i < |t.sleepers| ensures SleeperOk(t, t.sleepers[i]) {
      assert SleeperOk(s, s.sleepers[i]);
    }
  }

  lemma GrantInstallKeeps(s: Lab)
    requires Inv(s) && Enabled(s, Grant) && s.queue[0].action.Install?
    ensures Inv(Granted(s))
  {
    DequeueKeeps(s);
    var rest := s.(queue := s.queue[1..]);
    var kind := s.queue[0].action.kind;
    if s.op.None? {
      assert RequestOk(s, s.queue[0]);
      forall i | 0 <= i < |rest.queue| ensures rest.queue[i].seen == rest.Epoch() {
        assert s.queue[0].seen <= s.queue[i + 1].seen;
        assert RequestOk(s, s.queue[i + 1]);
      }
      InstalledKeeps(rest, kind);
      if kind.Delete? {
        var t := rest.(op := Some(|s.tasks|), tasks := s.tasks + [FreshTask(kind)]);
        QueuedKeeps(t, Peek(Owner));
      }
    }
  }

  /** A `Peek` that finds an operation finds the one its author saw, and may wait for it. */
  lemma PeekFinds(s: Lab, role: Role)
    requires Inv(s) && s.holder.None? && s.queue != [] && s.queue[0].action == Peek(role) && s.op.Some?
    ensures s.op.value == SeenOp(s.queue[0])
    ensures SleeperOk(s, Sleeper(role, s.op.value))
  {
    var r := s.queue[0];
    assert RequestOk(s, r);
    assert s.Epoch() == r.seen;
    assert TaskOk(s.tasks[s.op.value]);
  }

  lemma SleeperAddedKeeps(s: Lab, w: Sleeper)
    requires Inv(s) && SleeperOk(s, w)
    ensures Inv(s.(sleepers := s.sleepers + [w]))
  {
    var t := s.(sleepers := s.sleepers + [w]);
    forall i | 0 <= i < |t.queue| ensures RequestOk(t, t.queue[i]) {
      assert RequestOk(s, s.queue[i]);
    }
  }

  lemma GrantPeekKeeps(s: Lab)
    requires Inv(s) && Enabled(s, Grant) && s.queue[0].action.Peek?
    ensures Inv(Granted(s))
  {
    DequeueKeeps(s);
    if s.op.Some? {
      var role := s.queue[0].action.role;
      PeekFinds(s, role);
      SleeperAddedKeeps(s.(queue := s.queue[1..]), Sleeper(role, s.op.value));
    }
  }

  /** `task.cancel()` on a spawn nobody else can be cancelling. */
  lemma CancelAskedKeeps(s: Lab)
    requires Inv(s) && s.holder.Some? && s.holder.value.action.Cancel?
    requires s.op.Some? && !s.tasks[s.op.value].phase.Finished?
    ensures Inv(SetTask(s, s.op.value, s.tasks[s.op.value].(cancelAsked := true)))
  {
    var t := SetTask(s, s.op.value, s.tasks[s.op.value].(cancelAsked := true));
    CancelHoldsSpawn(s);
    RequestKept(s, t, s.holder.value);
    forall i | 0 <= i < |t.queue| ensures RequestOk(t, t.queue[i]) {
      RequestKept(s, t, s.queue[i]);
    }
    forall i | 0 <= i < |t.sleepers| ensures SleeperOk(t, t.sleepers[i]) {
      assert SleeperOk(s, s.sleepers[i]);
    }
  }

  /** A granted `cancel` finds an empty slot or exactly the spawn that made its author ask for it. */
  lemma CancelHoldsSpawn(s: Lab)
    requires Inv(s) && s.holder.Some? && s.holder.value.action.Cancel? && s.op.Some?
    ensures s.op.value == SeenOp(s.holder.value) && s.tasks[s.op.value].kind.Spawn?
    ensures s.holder.value.seen == s.Epoch()
  {
    assert RequestOk(s, s.holder.value);
  }

  lemma HeldKeeps(s: Lab)
    requires Inv(s) && s.holder.None? && s.queue != []
    requires s.queue[0].action.Clear? || s.queue[0].action.Cancel?
    ensures Inv(s.(holder := Some(s.queue[0]), queue := s.queue[1..]))
  {
    var r, t := s.queue[0], s.(holder := Some(s.queue[0]), queue := s.queue[1..]);
    assert RequestOk(s, r);
    assert forall i | 0 <= i < |t.queue| :: t.queue[i] == s.queue[i + 1];
    assert RequestOk(t, r);
    forall i | 0 <= i < |t.queue| ensures RequestOk(t, t.queue[i]) {
      assert RequestOk(s, s.queue[i + 1]);
    }
    forall i | 0 <= i < |t.sleepers| ensures SleeperOk(t, t.sleepers[i]) {
      assert SleeperOk(s, s.sleepers[i]);
    }
  }

  lemma GrantHeldKeeps(s: Lab)
    requires Inv(s) && Enabled(s, Grant) && (s.queue[0].action.Clear? || s.queue[0].action.Cancel?)
    ensures Inv(Granted(s))
  {
    HeldKeeps(s);
    var held := s.(holder := Some(s.queue[0]), queue := s.queue[1..]);
    if s.queue[0].action.Cancel? && s.op.Some? && !s.tasks[s.op.value].phase.Finished? {
      CancelAskedKeeps(held);
    }
  }

  /** The current operation leaves the slot on behalf of somebody who has seen it. */
  lemma RemovedKeeps(s: Lab, remover: Remover, r: Request)
    requires Inv(s) && s.holder == Some(r) && r.seen == s.Epoch()
    requires s.op.Some? && s.tasks[s.op.value].phase.Finished?
    requires s.tasks[s.op.value].kind.Spawn? && remover.Waiter? ==> s.tasks[s.op.value].finishedAt < s.lastModified
    ensures Inv(Emptied(s, remover))
  {
    var t := Emptied(s, remover);
    forall i | 0 <= i < |t.queue| ensures RequestOk(t, t.queue[i]) {
      RequestKept(s, t, s.queue[i]);
    }
    forall i | 0 <= i < |t.sleepers| ensures SleeperOk(t, t.sleepers[i]) {
      assert SleeperOk(s, s.sleepers[i]);
    }
  }

  lemma ReleasedKeeps(s: Lab)
    requires Inv(s) && (s.op.Some? ==> !s.tasks[s.op.value].cancelAsked)
    ensures Inv(s.(holder := None))
  {
    var t := s.(holder := None);
    forall i | 0 <= i < |t.queue| ensures RequestOk(t, t.queue[i]) {
      assert RequestOk(s, s.queue[i]);
    }
    forall i | 0 <= i < |t.sleepers| ensures SleeperOk(t, t.sleepers[i]) {
      assert SleeperOk(s, s.sleepers[i]);
    }
  }

  lemma CancelEmptiedKeeps(s: Lab)
    requires Inv(s) && Enabled(s, CancelDone(true))
    ensures Inv(Emptied(s, Canceller)) && Emptied(s, Canceller).op.None?
  {
    if s.op.Some? {
      CancelHoldsSpawn(s);
      RemovedKeeps(s, Canceller, s.holder.value);
    } else {
      ReleasedKeeps(s);
    }
  }

  lemma CancelDoneKeeps(s: Lab, stateGone: bool)
    requires Inv(s) && Enabled(s, CancelDone(stateGone))
    ensures Inv(Apply(s, CancelDone(stateGone)))
  {
    hide Inv, Granted, ClearFinished, TaskFinished, Removed;
    SlotInRange(s);
    CancelEmptiedKeeps(s);
    var emptied := Emptied(s, Canceller);
    if !stateGone {
      assert RequestOk(emptied, Request(Install(Delete), emptied.Epoch()));
      QueuedKeeps(emptied, Install(Delete));
    }
    Tick(CancelFinished(s, stateGone));
  }

  /** When the second half of `wait` holds the lock, nobody is cancelling. */
  lemma ClearHeld(s: Lab)
    requires Inv(s) && s.holder.Some? && s.holder.value.action.Clear?
    ensures s.holder.value.action.op < |s.tasks|
    ensures !s.tasks[s.holder.value.action.op].cancelled
    ensures s.op == Some(s.holder.value.action.op) ==> s.holder.value.seen == s.Epoch()
    ensures s.op.Some? ==> !s.tasks[s.op.value].cancelAsked
  {
    assert RequestOk(s, s.holder.value);
  }

  lemma StampedKeeps(s: Lab)
    requires Inv(s)
    ensures Inv(s.(lastModified := s.clock + 1, clock := s.clock + 1))
  {
    Tick(s);
    var t := s.(clock := s.clock + 1);
    var u := s.(lastModified := s.clock + 1, clock := s.clock + 1);
    forall i | 0 <= i < |u.queue| ensures RequestOk(u, u.queue[i]) {
      assert RequestOk(t, t.queue[i]);
    }
    forall i | 0 <= i < |u.sleepers| ensures SleeperOk(u, u.sleepers[i]) {
      assert SleeperOk(t, t.sleepers[i]);
    }
  }

  /** The end of `wait` once the stamp, if any, has been set. */
  lemma ClearEmptiedKeeps(s: Lab)
    requires Inv(s) && Enabled(s, ClearDone)
    requires s.tasks[s.holder.value.action.op].kind.Spawn? ==>
               s.tasks[s.holder.value.action.op].finishedAt < s.lastModified
    ensures Inv(if s.op == Some(s.holder.value.action.op) then Emptied(s, Waiter) else s.(holder := None))
  {
    ClearHeld(s);
    if s.op == Some(s.holder.value.action.op) {
      RemovedKeeps(s, Waiter, s.holder.value);
    } else {
      ReleasedKeeps(s);
    }
  }

  lemma JoinersWaitForDeletes(s: Lab)
    requires Inv(s) && Enabled(s, ClearDone)
    ensures s.holder.value.action.role.Joiner? ==> s.tasks[s.holder.value.action.op].kind.Delete?
    ensures s.tasks[s.holder.value.action.op].finishedAt <= s.clock
    ensures !s.tasks[s.holder.value.action.op].cancelled
    ensures s.op.Some? ==> s.op.value < |s.tasks|
  {
    assert RequestOk(s, s.holder.value);
  }

  lemma ClearDoneKeeps(s: Lab)
    requires Inv(s) && Enabled(s, ClearDone)
    ensures Inv(Apply(s, ClearDone))
  {
    hide Inv;
    JoinersWaitForDeletes(s);
    if s.holder.value.action.role.Joiner? {
      ClearEmptiedKeeps(s);
      Tick(ClearFinished(s));
    } else {
      StampedKeeps(s);
      ClearEmptiedKeeps(s.(lastModified := s.clock + 1, clock := s.clock + 1));
    }
  }

  lemma SleeperGoneKeeps(s: Lab, index: nat)
    requires Inv(s) && index < |s.sleepers|
    ensures Inv(s.(sleepers := s.sleepers[..index] + s.sleepers[index + 1..]))
    ensures SleeperOk(s.(sleepers := s.sleepers[..index] + s.sleepers[index + 1..]), s.sleepers[index])
  {
    var t := s.(sleepers := s.sleepers[..index] + s.sleepers[index + 1..]);
    forall i | 0 <= i < |t.queue| ensures RequestOk(t, t.queue[i]) {
      assert RequestOk(s, s.queue[i]);
    }
    forall i | 0 <= i < |t.sleepers| ensures SleeperOk(t, t.sleepers[i]) {
      assert t.sleepers[i] == s.sleepers[if i < index then i else i + 1];
    }
  }

  /** A woken caller queues for the second half of `wait` as one who has seen its operation end. */
  lemma WokenKeeps(s: Lab, w: Sleeper)
    requires Inv(s) && SleeperOk(s, w) && s.tasks[w.op].complete
    ensures Inv(Queued(s, Clear(w.role, w.op)))
  {
    assert TaskOk(s.tasks[w.op]);
    assert RequestOk(s, Request(Clear(w.role, w.op), s.Epoch()));
    QueuedKeeps(s, Clear(w.role, w.op));
  }

  lemma WakeKeeps(s: Lab, index: nat)
    requires Inv(s) && Enabled(s, Wake(index))
    ensures Inv(Apply(s, Wake(index)))
  {
    hide Inv, SleeperOk, Granted, CancelFinished, ClearFinished, TaskFinished;
    SlotInRange(s);
    SleeperGoneKeeps(s, index);
    WokenKeeps(s.(sleepers := s.sleepers[..index] + s.sleepers[index + 1..]), s.sleepers[index]);
    Tick(Woken(s, index));
  }

  /** A task moves forward; operations and requests stay where they are. */
  lemma TaskMovedKeeps(s: Lab, k: nat, task: Task)
    requires Inv(s) && s.op == Some(k) && !s.tasks[k].phase.Finished? && TaskOk(task)
    requires task.kind == s.tasks[k].kind && task.removedBy.None? && task.finishedAt <= s.clock
    requires task.cancelAsked == s.tasks[k].cancelAsked
    ensures Inv(SetTask(s, k, task))
  {
    var t := SetTask(s, k, task);
    assert TaskOk(s.tasks[k]);
    if s.holder.Some? {
      RequestKept(s, t, s.holder.value);
    }
    forall i | 0 <= i < |t.queue| ensures RequestOk(t, t.queue[i]) {
      RequestKept(s, t, s.queue[i]);
    }
    forall i | 0 <= i < |t.sleepers| ensures SleeperOk(t, t.sleepers[i]) {
      assert SleeperOk(s, s.sleepers[i]);
    }
  }

  lemma TaskStartsKeeps(s: Lab, k: nat)
    requires Inv(s) && Enabled(s, TaskStarts(k))
    ensures Inv(Apply(s, TaskStarts(k)))
  {
    assert TaskOk(s.tasks[k]);
    assert s.op == Some(k) && s.tasks[k].removedBy.None? && s.tasks[k].finishedAt <= s.clock;
    hide Inv;
    TaskMovedKeeps(s, k, s.tasks[k].(phase := Running));
    Tick(SetTask(s, k, s.tasks[k].(phase := Running)));
  }

  lemma TaskFinishesKeeps(s: Lab, k: nat, cancelled: bool)
    requires Inv(s) && Enabled(s, TaskFinishes(k, cancelled))
    ensures s.op == Some(k)
    ensures Inv(Apply(s, TaskFinishes(k, cancelled)))
  {
    Tick(s);
    var t := s.(clock := s.clock + 1);
    assert TaskOk(s.tasks[k]);
    var done := s.tasks[k].(phase := Finished, cancelled := cancelled, finishedAt := s.clock + 1,
      complete := s.tasks[k].phase.Running?);
    TaskMovedKeeps(t, k, done);
    assert Apply(s, TaskFinishes(k, cancelled)).tasks == SetTask(t, k, done).tasks;
  }

  lemma GrantKeeps(s: Lab)
    requires Inv(s) && Enabled(s, Grant)
    ensures Inv(Apply(s, Grant))
  {
    hide Inv, Granted, CancelFinished, ClearFinished, TaskFinished;
    SlotInRange(s);
    match s.queue[0].action {
      case Install(_) => GrantInstallKeeps(s);
      case Peek(_) => GrantPeekKeeps(s);
      case _ => GrantHeldKeeps(s);
    }
    Tick(Granted(s));
    assert Apply(s, Grant) == Granted(s).(clock := s.clock + 1);
  }

  /** Every step of every interleaving keeps the invariant. */
  lemma StepKeeps(s: Lab, step: Step)
    requires Inv(s) && Enabled(s, step)
    ensures Inv(Apply(s, step))
  {
    hide Inv, Apply, Enabled;
    match step
    case Grant => GrantKeeps(s);
    case CancelDone(stateGone) => CancelDoneKeeps(s, stateGone);
    case ClearDone => ClearDoneKeeps(s);
    case Wake(i) => WakeKeeps(s, i);
    case TaskStarts(k) => TaskStartsKeeps(s, k);
    case TaskFinishes(k, cancelled) => TaskFinishesKeeps(s, k, cancelled);
    case _ => ArrivalKeeps(s, step);
  }
}
