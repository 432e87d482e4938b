/** The monitor of one user's lab as the program keeps it: fields updated in place. */
module LabMonitors {
  import opened Wrappers
  import opened LabProtocol
  import opened LabProtocolInvariant

  /** `NotRunning` is the `RuntimeError` of `is_done`. */
  datatype MonitorError = OperationConflict | NoOperation | Cancelled | NotRunning | LabExists | UnknownUser

  lemma ArrivalQueues(s: Lab, step: Step)
    requires Inv(s) && Enabled(s, step) && IsArrival(step)
    ensures s.Epoch() >= 0
    ensures var t := Queued(s, ArrivalRequest(s, step)).(clock := s.clock + 1); Inv(t) && Moves(s, step, t)
  {
    hide Inv, RequestOk, Granted, CancelFinished, ClearFinished, TaskFinished, Woken;
    SlotInRange(s);
    ArrivalKeeps(s, step);
  }

  /** The owner of a deletion, once at the head of the queue, finds its own operation. */
  lemma OwnerFinds(s: Lab)
    requires Inv(s) && Enabled(s, Grant)
    ensures s.queue[0].action == Peek(Owner) ==> s.op == Some(SeenOp(s.queue[0]))
  {
    assert RequestOk(s, s.queue[0]);
  }

  lemma RunningIsQuiet(s: Lab, k: nat)
    requires Inv(s) && k < |s.tasks| && !s.tasks[k].phase.Finished?
    ensures s.op == Some(k) && !s.tasks[k].complete
  {
    assert TaskOk(s.tasks[k]);
  }

  /** A caller goes to the end of the lock's queue, remembering how often the slot has changed, and nothing else changes. */
  predicate Queues(s: Lab, action: Action, t: Lab) {
    && t == s.(queue := t.queue, clock := s.clock + 1)
    && |t.queue| == |s.queue| + 1 && t.queue[..|s.queue|] == s.queue
    && t.queue[|s.queue|].action == action && t.queue[|s.queue|].seen == 2 * |s.tasks| - (if s.op.Some? then 1 else 0)
  }

  /**
   `_LabMonitor` with the lock's queue spelled out, and the `last_modified` stamp of the
   record that holds it. Every method is one uninterrupted stretch of the program.
   */
  class LabMonitor {
    var operation: Option<nat>
    var tasks: seq<Task>
    var holder: Option<Request>
    var waiters: seq<Request>
    var sleepers: seq<Sleeper>
    var lastModified: nat
    var clock: nat

    function Abs(): Lab
      reads this
    {
      Lab(operation, tasks, holder, waiters, sleepers, lastModified, clock)
    }

    ghost predicate Valid()
      reads this
    {
      Inv(Abs())
    }

    constructor ()
      ensures Valid() && Abs() == NEW
    {
      operation, tasks, holder, waiters, sleepers := None, [], None, [], [];
      lastModified, clock := 0, 0;
      new;
      InitKeeps();
    }

    /** `in_progress` */
    method InProgress() returns (kind: Option<Kind>)
      requires Valid()
      ensures kind.Some? <==> operation.Some?
      ensures kind.Some? ==> kind.value == tasks[operation.value].kind && operation.value == |tasks| - 1
    {
      kind := if operation.Some? then Some(tasks[operation.value].kind) else None;
    }

    /** `is_done` */
    method IsDone() returns (done: Result<bool, MonitorError>)
      requires Valid()
      ensures done.Err? <==> operation.None?
      ensures done.Err? ==> done.error == NotRunning
      ensures done.Ok? ==> (done.value <==> Enabled(Abs(), ReaperArrives))
    {
      if operation.None? {
        return Err(NotRunning);
      }
      done := Ok(tasks[operation.value].phase.Finished?);
    }

    /** Waits for the lock behind everybody who asked before. */
    method Enqueue(action: Action)
      requires Abs().Epoch() >= 0
      modifies this`waiters
      ensures Abs() == Queued(old(Abs()), action) && waiters == old(waiters) + [Request(action, Abs().Epoch())]
    {
      waiters := waiters + [Request(action, 2 * |tasks| - (if operation.Some? then 1 else 0))];
    }

    /** A caller goes from its look at the operation to the end of the lock's queue. */
    method Arrive(action: Action, ghost step: Step)
      requires Valid() && IsArrival(step) && Enabled(Abs(), step) && action == ArrivalRequest(Abs(), step)
      modifies this
      ensures Valid() && Moves(old(Abs()), step, Abs())
      ensures Queues(old(Abs()), action, Abs())
    {
      hide Inv, Moves, Enabled, ArrivalRequest;
      ArrivalQueues(Abs(), step);
      Enqueue(action);
      clock := clock + 1;
    }

    /**
     `create_lab` (or the reconciler's `_monitor_pending_spawn`) from its `in_progress` check
     to the lock. `known` says that there is a lab already, and `deleteFirst` that it may go.
     */
    method RequestSpawn(known: bool, deleteFirst: bool) returns (r: Result<(), MonitorError>)
      requires Valid()
      modifies this
      ensures Valid()
      ensures r == if old(operation).Some? then Err(OperationConflict)
                   else if known && !deleteFirst then Err(LabExists) else Ok(())
      ensures if r.Ok? then Moves(old(Abs()), CreateArrives, Abs()) else Abs() == old(Abs())
      ensures r.Ok? ==> Queues(old(Abs()), Install(Spawn), Abs())
    {
      hide Inv, Moves;
      if operation.Some? {
        return Err(OperationConflict);
      }
      if known && !deleteFirst {
        return Err(LabExists);
      }
      Arrive(Install(Spawn), CreateArrives);
      r := Ok(());
    }

    /** `delete_lab` from its look at `in_progress` to the lock; `known` says that there is a lab. */
    method RequestDelete(known: bool) returns (r: Result<(), MonitorError>)
      requires Valid()
      modifies this
      ensures Valid() && r == if known then Ok(()) else Err(UnknownUser)
      ensures if known then Moves(old(Abs()), DeleteArrives, Abs()) else Abs() == old(Abs())
      ensures known && old(operation).None? ==> Queues(old(Abs()), Install(Delete), Abs())
      ensures known && old(operation).Some? && old(tasks[operation.value]).kind.Spawn? ==> Queues(old(Abs()), Cancel, Abs())
      ensures known && old(operation).Some? && old(tasks[operation.value]).kind.Delete? ==> Queues(old(Abs()), Peek(Joiner), Abs())
    {
      if !known {
        return Err(UnknownUser);
      }
      var busy := InProgress();
      hide Inv, Moves;
      match busy {
        case Some(Delete) => Arrive(Peek(Joiner), DeleteArrives);
        case Some(Spawn) => Arrive(Cancel, DeleteArrives);
        case None => Arrive(Install(Delete), DeleteArrives);
      }
      r := Ok(());
    }

    /** The reaper, for a lab whose operation it sees has ended. */
    method RequestReap() returns (found: bool)
      requires Valid()
      modifies this
      ensures Valid() && found == old(Enabled(Abs(), ReaperArrives))
      ensures if found then Moves(old(Abs()), ReaperArrives, Abs()) else Abs() == old(Abs())
      ensures found == old(operation.Some? && tasks[operation.value].phase.Finished?)
      ensures found ==> Queues(old(Abs()), Peek(Reaper), Abs())
    {
      SlotInRange(Abs());
      hide Inv, Moves;
      found := false;
      if operation.Some? {
        var done := IsDone();
        found := done.value;
      }
      if found {
        Arrive(Peek(Reaper), ReaperArrives);
      }
    }

    /** A waiter whose operation has signalled `complete` asks for the lock again. */
    method WakeSleeper(index: nat)
      requires Valid() && Enabled(Abs(), Wake(index))
      modifies this
      ensures Valid() && Moves(old(Abs()), Wake(index), Abs())
      ensures sleepers == old(sleepers)[..index] + old(sleepers)[index + 1..]
      ensures |waiters| == |old(waiters)| + 1 && waiters[..|old(waiters)|] == old(waiters)
      ensures waiters[|old(waiters)|].action == Clear(old(sleepers)[index].role, old(sleepers)[index].op)
      ensures operation == old(operation) && tasks == old(tasks) && holder == old(holder) && lastModified == old(lastModified)
    {
      hide Inv, RequestOk, Granted, CancelFinished, ClearFinished, TaskFinished;
      SlotInRange(Abs());
      StepKeeps(Abs(), Wake(index));
      var sleeper := sleepers[index];
      sleepers := sleepers[..index] + sleepers[index + 1..];
      Enqueue(Clear(sleeper.role, sleeper.op));
      clock := clock + 1;
    }

    /** The first step of an operation's task. */
    method StartTask(k: nat)
      requires Valid() && Enabled(Abs(), TaskStarts(k))
      modifies this
      ensures Valid() && Moves(old(Abs()), TaskStarts(k), Abs())
      ensures |tasks| == |old(tasks)| && tasks[k] == old(tasks)[k].(phase := Running)
      ensures forall i | 0 <= i < |tasks| && i != k :: tasks[i] == old(tasks)[i]
      ensures operation == old(operation) && holder == old(holder) && waiters == old(waiters) && sleepers == old(sleepers)
    {
      hide Inv, RequestOk, Granted, CancelFinished, ClearFinished, TaskFinished, Woken;
      SlotInRange(Abs());
      StepKeeps(Abs(), TaskStarts(k));
      tasks := tasks[k := tasks[k].(phase := Running)];
      clock := clock + 1;
    }

    /** The critical section of `monitor`, once the lock is granted. */
    method EnterMonitor() returns (r: Result<(), MonitorError>)
      requires Valid() && Enabled(Abs(), Grant) && waiters[0].action.Install?
      modifies this
      ensures Valid() && Moves(old(Abs()), Grant, Abs())
      ensures r == (if old(operation).Some? then Err(OperationConflict) else Ok(()))
      ensures holder.None? && sleepers == old(sleepers) && lastModified == old(lastModified)
      ensures r.Err? ==> operation == old(operation) && tasks == old(tasks) && waiters == old(waiters)[1..]
      ensures r.Ok? ==>
                var k, kind := |old(tasks)|, old(waiters)[0].action.kind;
                && operation == Some(k) && |tasks| == k + 1 && tasks[..k] == old(tasks)
                && tasks[k].kind == kind && tasks[k].phase.Unstarted? && !tasks[k].cancelAsked && !tasks[k].complete
                && waiters == old(waiters)[1..] + if kind.Delete? then [Request(Peek(Owner), 2 * k + 1)] else []
    {
      hide Inv, RequestOk, CancelFinished, ClearFinished, TaskFinished, Woken;
      SlotInRange(Abs());
      StepKeeps(Abs(), Grant);
      var kind := waiters[0].action.kind;
      waiters := waiters[1..];
      if operation.Some? {
        r := Err(OperationConflict);
      } else {
        operation, tasks := Some(|tasks|), tasks + [FreshTask(kind)];
        if kind.Delete? {
          Enqueue(Peek(Owner));
        }
        r := Ok(());
      }
      clock := clock + 1;
    }

    /** The first critical section of `wait`; a delete's own wait never fails here. */
    method EnterWait() returns (r: Result<nat, MonitorError>)
      requires Valid() && Enabled(Abs(), Grant) && waiters[0].action.Peek?
      modifies this
      ensures Valid() && Moves(old(Abs()), Grant, Abs())
      ensures r == (if old(operation).Some? then Ok(old(operation).value) else Err(NoOperation))
      ensures old(waiters)[0].action == Peek(Owner) ==> r.Ok? && r.value == SeenOp(old(waiters)[0])
      ensures sleepers == old(sleepers) + if r.Ok? then [Sleeper(old(waiters)[0].action.role, r.value)] else []
      ensures waiters == old(waiters)[1..] && operation == old(operation) && tasks == old(tasks)
      ensures holder.None? && lastModified == old(lastModified)
    {
      hide Inv, RequestOk, CancelFinished, ClearFinished, TaskFinished, Woken;
      SlotInRange(Abs());
      StepKeeps(Abs(), Grant);
      var request := waiters[0];
      OwnerFinds(Abs());
      waiters := waiters[1..];
      if operation.None? {
        r := Err(NoOperation);
      } else {
        sleepers := sleepers + [Sleeper(request.action.role, operation.value)];
        r := Ok(operation.value);
      }
      clock := clock + 1;
    }

    /** The start of `cancel` and of the second critical section of `wait`: the lock stays held. */
    method EnterHeld()
      requires Valid() && Enabled(Abs(), Grant) && (waiters[0].action.Cancel? || waiters[0].action.Clear?)
      modifies this
      ensures Valid() && Moves(old(Abs()), Grant, Abs()) && holder == Some(old(waiters)[0])
      ensures waiters == old(waiters)[1..] && sleepers == old(sleepers) && operation == old(operation) && lastModified == old(lastModified)
      ensures |tasks| == |old(tasks)| && forall i | 0 <= i < |tasks| ::
                tasks[i] == if old(waiters)[0].action.Cancel? && operation == Some(i) && !old(tasks)[i].phase.Finished?
                            then old(tasks)[i].(cancelAsked := true) else old(tasks)[i]
    {
      hide Inv, RequestOk, CancelFinished, ClearFinished, TaskFinished, Woken;
      SlotInRange(Abs());
      StepKeeps(Abs(), Grant);
      var request := waiters[0];
      holder, waiters := Some(request), waiters[1..];
      if request.action.Cancel? && operation.Some? && !tasks[operation.value].phase.Finished? {
        tasks := tasks[operation.value := tasks[operation.value].(cancelAsked := true)];
      }
      clock := clock + 1;
    }

    /** The end of `cancel` and what `delete_lab` does next without suspending. */
    method FinishCancel(stateGone: bool) returns (r: Result<(), MonitorError>)
      requires Valid() && Enabled(Abs(), CancelDone(stateGone))
      modifies this
      ensures Valid() && Moves(old(Abs()), CancelDone(stateGone), Abs()) && operation.None?
      ensures r == if stateGone then Err(UnknownUser) else Ok(())
      ensures holder.None? && sleepers == old(sleepers) && lastModified == old(lastModified) && |tasks| == |old(tasks)|
      ensures waiters == old(waiters) + if stateGone then [] else [Request(Install(Delete), 2 * |tasks|)]
    {
      hide Inv, RequestOk, Granted, ClearFinished, TaskFinished, Woken;
      SlotInRange(Abs());
      StepKeeps(Abs(), CancelDone(stateGone));
      holder := None;
      if operation.Some? {
        var k := operation.value;
        tasks, operation := tasks[k := tasks[k].(removedBy := Some(Canceller))], None;
      }
      r := Err(UnknownUser);
      if !stateGone {
        Enqueue(Install(Delete));
        r := Ok(());
      }
      clock := clock + 1;
    }

    /** The end of `wait`, with the `last_modified` update of the callers that stamp it. */
    method FinishWait() returns (r: Result<(), MonitorError>)
      requires Valid() && Enabled(Abs(), ClearDone)
      modifies this
      ensures Valid() && Moves(old(Abs()), ClearDone, Abs()) && r.Ok?
      ensures operation == if old(operation) == Some(old(holder).value.action.op) then None else old(operation)
      ensures lastModified == if old(holder).value.action.role.Joiner? then old(lastModified) else clock
      ensures holder.None? && waiters == old(waiters) && sleepers == old(sleepers) && |tasks| == |old(tasks)|
    {
      hide Inv, RequestOk, Granted, CancelFinished, TaskFinished, Woken;
      SlotInRange(Abs());
      StepKeeps(Abs(), ClearDone);
      ClearHeld(Abs());
      var action := holder.value.action;
      holder := None;
      if tasks[action.op].cancelled {
        return Err(Cancelled);
      }
      if operation == Some(action.op) {
        tasks, operation := tasks[action.op := tasks[action.op].(removedBy := Some(Waiter))], None;
      }
      clock := clock + 1;
      if !action.role.Joiner? {
        lastModified := clock;
      }
      r := Ok(());
    }

    /** The `finally` of `_monitor_operation`, which signals whatever operation is in the slot. */
    method FinishTask(k: nat, cancelled: bool)
      requires Valid() && Enabled(Abs(), TaskFinishes(k, cancelled))
      modifies this
      ensures Valid() && Moves(old(Abs()), TaskFinishes(k, cancelled), Abs())
      ensures operation == Some(k) && k < |tasks| && tasks[k].complete == old(tasks[k].phase.Running?)
      ensures tasks[k].phase.Finished? && tasks[k].cancelled == cancelled && tasks[k].finishedAt == clock
      ensures |tasks| == |old(tasks)| && forall i | 0 <= i < |tasks| && i != k :: tasks[i] == old(tasks)[i]
      ensures holder == old(holder) && waiters == old(waiters) && sleepers == old(sleepers) && lastModified == old(lastModified)
    {
      hide Inv, RequestOk, Granted, CancelFinished, ClearFinished, Woken;
      SlotInRange(Abs());
      StepKeeps(Abs(), TaskFinishes(k, cancelled));
      TaskFinishesKeeps(Abs(), k, cancelled);
      RunningIsQuiet(Abs(), k);
      var ran := tasks[k].phase.Running?;
      clock := clock + 1;
      tasks := tasks[k := tasks[k].(phase := Finished, cancelled := cancelled, finishedAt := clock)];
      if ran && operation.Some? {
        tasks := tasks[operation.value := tasks[operation.value].(complete := true)];
      }
    }
  }
}
