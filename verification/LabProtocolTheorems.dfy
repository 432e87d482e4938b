/** What holds in every run of the lab operation protocol, in whatever order its steps interleave. */
module LabProtocolTheorems {
  import opened Wrappers
  import opened LabProtocol
  import opened LabProtocolInvariant

  lemma {:induction false} RunKeeps(states: seq<Lab>, steps: seq<Step>, i: nat)
    requires Run(states, steps) && i < |states|
    ensures Inv(states[i])
  {
    hide Inv, Apply, Enabled;
    if i == 0 {
      InitKeeps();
    } else {
      RunKeeps(states, steps, i - 1);
      StepKeeps(states[i - 1], steps[i - 1]);
    }
  }

  // ----- cancellation

  /** A delete that sees spawn `k` in the slot queues a `cancel` that remembers `k`. */
  lemma CancelRemembers(s: Lab, k: nat)
    requires Inv(s) && s.op == Some(k) && s.tasks[k].kind.Spawn?
    ensures Apply(s, DeleteArrives).queue == s.queue + [Request(Cancel, s.Epoch())]
    ensures SeenOp(Request(Cancel, s.Epoch())) == k
  {
  }

  /** However long it queued, a `cancel` finds the very spawn it was issued against, or nothing. */
  lemma CancelFindsWhatItSaw(states: seq<Lab>, steps: seq<Step>, i: nat)
    requires Run(states, steps) && i < |steps| && steps[i] == Grant
    requires states[i].queue[0].action.Cancel?
    ensures var s := states[i];
            s.op.None? || (s.op.value == SeenOp(s.queue[0]) && s.tasks[s.op.value].kind.Spawn?)
  {
    RunKeeps(states, steps, i);
    assert RequestOk(states[i], states[i].queue[0]);
  }

  /** No run cancels a delete operation. */
  lemma DeletesAreNeverCancelled(states: seq<Lab>, steps: seq<Step>, i: nat, k: nat)
    requires Run(states, steps) && i < |states| && k < |states[i].tasks| && states[i].tasks[k].kind.Delete?
    ensures !states[i].tasks[k].cancelAsked && !states[i].tasks[k].cancelled
    ensures states[i].tasks[k].phase.Finished? ==> states[i].tasks[k].complete
  {
    RunKeeps(states, steps, i);
    assert TaskOk(states[i].tasks[k]);
  }

  // ----- one operation at a time

  /** The only unfinished task there can be is the task of the operation in the slot. */
  lemma UnfinishedIsCurrent(states: seq<Lab>, steps: seq<Step>, i: nat, k: nat)
    requires Run(states, steps) && i < |states| && k < |states[i].tasks|
    requires !states[i].tasks[k].phase.Finished?
    ensures states[i].op == Some(k) && k == |states[i].tasks| - 1
  {
    RunKeeps(states, steps, i);
  }

  /**
   The `finally` of an operation that ran signals its own `complete` and no other. An
   operation cancelled before its first step signals nothing.
   */
  lemma FinallySignalsItsOwn(states: seq<Lab>, steps: seq<Step>, i: nat, k: nat, cancelled: bool)
    requires Run(states, steps) && i < |steps| && steps[i] == TaskFinishes(k, cancelled)
    ensures |states[i + 1].tasks| == |states[i].tasks|
    ensures states[i + 1].tasks[k].complete == states[i].tasks[k].phase.Running?
    ensures forall j | 0 <= j < |states[i].tasks| && j != k :: states[i + 1].tasks[j] == states[i].tasks[j]
  {
    RunKeeps(states, steps, i);
    TaskFinishesKeeps(states[i], k, cancelled);
    assert TaskOk(states[i].tasks[k]);
  }

  // ----- removal

  lemma StepRemoves(s: Lab, step: Step, k: nat)
    requires Inv(s) && Enabled(s, step) && k < |s.tasks|
    ensures var t := Apply(s, step);
            && k < |t.tasks|
            && (s.tasks[k].removedBy.Some? ==> t.tasks[k].removedBy == s.tasks[k].removedBy)
            && (s.tasks[k].removedBy.None? && t.tasks[k].removedBy.Some? ==>
                  && s.op == Some(k) && t.op.None? && s.tasks[k].phase.Finished?
                  && ((step.CancelDone? && t.tasks[k].removedBy == Some(Canceller) && SeenOp(s.holder.value) == k)
                      || (step == ClearDone && t.tasks[k].removedBy == Some(Waiter) && s.holder.value.action.op == k)))
  {
    match step
    case TaskFinishes(j, cancelled) => TaskFinishesKeeps(s, j, cancelled);
    case CancelDone(_) => if s.op.Some? { CancelHoldsSpawn(s); }
    case _ =>
  }

  /**
   An operation leaves the slot only after its own task has finished, on behalf of a
   `cancel` issued against it or of somebody who waited for it.
   */
  lemma RemovalIsEarned(states: seq<Lab>, steps: seq<Step>, i: nat, k: nat)
    requires Run(states, steps) && i < |steps| && states[i].op == Some(k) && states[i + 1].op != Some(k)
    ensures steps[i] == ClearDone || steps[i].CancelDone?
    ensures states[i + 1].op.None? && states[i].tasks[k].phase.Finished?
    ensures var r := states[i].holder;
            && r.Some?
            && (if steps[i] == ClearDone then r.value.action.Clear? && r.value.action.op == k
                else r.value.action.Cancel? && SeenOp(r.value) == k)
  {
    RunKeeps(states, steps, i);
    RunKeeps(states, steps, i + 1);
    StepRemoves(states[i], steps[i], k);
  }

  /** Once removed, always removed, by whoever removed it first; it is never in the slot again. */
  lemma {:induction false} RemovedOnce(states: seq<Lab>, steps: seq<Step>, i: nat, j: nat, k: nat)
    requires Run(states, steps) && i <= j < |states|
    requires k < |states[i].tasks| && states[i].tasks[k].removedBy.Some?
    ensures k < |states[j].tasks| && states[j].tasks[k].removedBy == states[i].tasks[k].removedBy
    ensures states[j].op != Some(k)
  {
    hide Apply, Enabled;
    if i == j {
      RunKeeps(states, steps, i);
    } else {
      RemovedOnce(states, steps, i, j - 1, k);
      RunKeeps(states, steps, j - 1);
      RunKeeps(states, steps, j);
      StepRemoves(states[j - 1], steps[j - 1], k);
    }
  }

  // ----- waiting

  /** The delete that started an operation always finds it when it starts to wait for it. */
  lemma OwnerFindsItsDelete(states: seq<Lab>, steps: seq<Step>, i: nat)
    requires Run(states, steps) && i < |steps| && steps[i] == Grant
    requires states[i].queue[0].action == Peek(Owner)
    ensures var s := states[i];
            s.op == Some(SeenOp(s.queue[0])) && s.tasks[s.op.value].kind.Delete?
  {
    RunKeeps(states, steps, i);
    var s := states[i];
    assert RequestOk(s, s.queue[0]);
    assert s.queue[0].seen == s.Epoch();
  }

  /** Nobody ever waits for an operation whose end raises `CancelledError` at them. */
  lemma WaitersSeeACleanEnd(states: seq<Lab>, steps: seq<Step>, i: nat)
    requires Run(states, steps) && i < |steps| && steps[i] == ClearDone
    ensures var s := states[i];
            s.holder.value.action.op < |s.tasks| && !s.tasks[s.holder.value.action.op].cancelled
  {
    RunKeeps(states, steps, i);
    ClearHeld(states[i]);
  }

  // ----- joining a delete

  /** How often the lock was granted by the steps from `i` up to `j`. */
  function Grants(steps: seq<Step>, i: nat, j: nat): (n: nat)
    requires i <= j <= |steps|
  {
    if i == j then 0 else Grants(steps, i, j - 1) + (if steps[j - 1] == Grant then 1 else 0)
  }

  predicate ClearsOp(r: Request, k: nat) {
    r.action.Clear? && r.action.op == k
  }

  /** Operation `k` is in the slot, and neither the holder nor the first `p` in the queue are about to clear it. */
  predicate Stays(s: Lab, k: nat, p: nat)
    requires p <= |s.queue|
  {
    && s.op == Some(k)
    && (s.holder.Some? ==> !ClearsOp(s.holder.value, k))
    && forall n | 0 <= n < p :: !ClearsOp(s.queue[n], k)
  }

  /** A delete that joins operation `k` and has `p` requests ahead of it. */
  ghost predicate Joined(s: Lab, k: nat, p: nat) {
    && p < |s.queue| && s.queue[p] == Request(Peek(Joiner), 2 * k + 1)
    && k < |s.tasks| && s.tasks[k].kind.Delete?
    && (s.op.Some? ==> s.op.value == k)
  }

  lemma JoinedSlot(s: Lab, k: nat, p: nat)
    requires Inv(s) && p < |s.queue| && s.queue[p] == Request(Peek(Joiner), 2 * k + 1)
    ensures Joined(s, k, p)
  {
    assert RequestOk(s, s.queue[p]);
  }

  lemma StaysEmpty(s: Lab, k: nat, step: Step)
    requires Inv(s) && Enabled(s, step) && Inv(Apply(s, step))
    requires k < |s.tasks| && s.op != Some(k)
    ensures Apply(s, step).op != Some(k)
  {
    hide Apply, Enabled;
    StepRemoves(s, step, k);
  }

  lemma JoinerAfterGrant(s: Lab, k: nat, p: nat)
    requires Inv(s) && Joined(s, k, p) && 0 < p && Enabled(s, Grant)
    ensures var t := Apply(s, Grant);
            && p - 1 < |t.queue| && t.queue[p - 1] == s.queue[p]
            && (forall n | 0 <= n < p - 1 :: t.queue[n] == s.queue[n + 1])
            && (s.op == Some(k) ==> t.op == Some(k))
            && (t.holder.Some? ==> t.holder.value == s.queue[0])
            && (ClearsOp(s.queue[0], k) ==> t.holder == Some(s.queue[0]))
  {
  }

  /** No step but a grant moves the joiner; one that empties the slot of a delete ends a `Clear`. */
  lemma JoinerOtherwise(s: Lab, k: nat, p: nat, step: Step)
    requires Inv(s) && Joined(s, k, p) && Enabled(s, step) && step != Grant
    ensures var t := Apply(s, step);
            && |s.queue| <= |t.queue| && s.queue == t.queue[..|s.queue|]
            && (t.op == s.op || (t.op.None? && step == ClearDone && ClearsOp(s.holder.value, k)) || s.op != Some(k))
            && (t.holder == s.holder || (t.holder.None? && (step == ClearDone || step.CancelDone?)))
            && (step == ClearDone && ClearsOp(s.holder.value, k) ==> t.op != Some(k))
  {
    match step
    case CancelDone(_) => if s.op.Some? { CancelHoldsSpawn(s); }
    case ClearDone => ClearHeld(s);
    case TaskFinishes(j, cancelled) => TaskFinishesKeeps(s, j, cancelled);
    case _ =>
  }

  /** While a joiner moves up in the queue, nothing changes about whether its delete will still be there. */
  lemma JoinerMoves(s: Lab, k: nat, p: nat, step: Step)
    requires Inv(s) && Joined(s, k, p) && Enabled(s, step) && (step == Grant ==> 0 < p)
    ensures var t := Apply(s, step);
            var q := if step == Grant then p - 1 else p;
            Joined(t, k, q) && (Stays(t, k, q) <==> Stays(s, k, p))
  {
    hide Inv, Apply;
    var t := Apply(s, step);
    StepKeeps(s, step);
    if s.op != Some(k) {
      StaysEmpty(s, k, step);
    }
    if step == Grant {
      JoinerAfterGrant(s, k, p);
      JoinedSlot(t, k, p - 1);
      assert forall n | 0 < n < p :: s.queue[n] == t.queue[n - 1];
    } else {
      JoinerOtherwise(s, k, p, step);
      JoinedSlot(t, k, p);
      assert forall n | 0 <= n <= p :: t.queue[n] == t.queue[..|s.queue|][n];
    }
  }

  lemma {:induction false} JoinerQueues(states: seq<Lab>, steps: seq<Step>, i: nat, m: nat, k: nat)
    requires Run(states, steps) && i < m <= |steps| && steps[i] == DeleteArrives
    requires states[i].op == Some(k) && states[i].Busy() == Some(Delete)
    requires Grants(steps, i + 1, m) <= |states[i].queue|
    ensures var p := |states[i].queue| - Grants(steps, i + 1, m);
            Joined(states[m], k, p) && (Stays(states[m], k, p) <==> Stays(states[i], k, |states[i].queue|))
  {
    hide Inv, Apply, Enabled, Joined, Stays;
    if m == i + 1 {
      RunKeeps(states, steps, i);
      JoinerArrives(states[i], k);
    } else {
      var p := |states[i].queue| - Grants(steps, i + 1, m - 1);
      JoinerQueues(states, steps, i, m - 1, k);
      RunKeeps(states, steps, m - 1);
      JoinerMoves(states[m - 1], k, p, steps[m - 1]);
    }
  }

  lemma JoinerArrives(s: Lab, k: nat)
    requires Inv(s) && s.op == Some(k) && s.Busy() == Some(Delete)
    ensures Enabled(s, DeleteArrives)
    ensures var t, p := Apply(s, DeleteArrives), |s.queue|;
            Joined(t, k, p) && (Stays(t, k, p) <==> Stays(s, k, p))
  {
    var t := Apply(s, DeleteArrives);
    assert t.queue[..|s.queue|] == s.queue;
  }

  /**
   A delete that saw delete `k` in progress finds that operation when its turn comes if and
   only if, when it queued, nobody who was about to clear `k` held the lock or queued for it;
   otherwise it finds nothing. Its turn is the grant after those of everybody ahead of it.
   */
  lemma JoinerFindsIff(states: seq<Lab>, steps: seq<Step>, i: nat, j: nat, k: nat)
    requires Run(states, steps) && i < j < |steps| && steps[i] == DeleteArrives && steps[j] == Grant
    requires states[i].op == Some(k) && states[i].Busy() == Some(Delete)
    requires Grants(steps, i + 1, j) == |states[i].queue|
    ensures states[j].queue[0] == Request(Peek(Joiner), 2 * k + 1)
    ensures states[j].op == Some(k) <==> Stays(states[i], k, |states[i].queue|)
    ensures states[j].op != Some(k) ==> states[j].op.None?
  {
    hide Inv, Apply;
    JoinerQueues(states, steps, i, j, k);
  }

  /** A delete that joins one in progress while nobody holds the lock or queues for it is served. */
  lemma FreeLockFinds(states: seq<Lab>, steps: seq<Step>, i: nat, j: nat, k: nat)
    requires Run(states, steps) && i < j < |steps| && steps[i] == DeleteArrives && steps[j] == Grant
    requires states[i].op == Some(k) && states[i].Busy() == Some(Delete)
    requires states[i].holder.None? && states[i].queue == [] && Grants(steps, i + 1, j) == 0
    ensures states[j].op == Some(k) && states[j + 1].sleepers == states[j].sleepers + [Sleeper(Joiner, k)]
  {
    hide Inv;
    JoinerFindsIff(states, steps, i, j, k);
  }

  // ----- starting an operation

  /** The slot is taken, or one of the first `p` in the queue asks for it. */
  predicate Contested(s: Lab, p: nat)
    requires p <= |s.queue|
  {
    s.op.Some? || exists n :: 0 <= n < p && s.queue[n].action.Install?
  }

  /** A caller that wants to start an operation and has `p` requests ahead of it. */
  predicate Starting(s: Lab, kind: Kind, p: nat) {
    p < |s.queue| && s.queue[p].action == Install(kind)
  }

  lemma StarterAfterGrant(s: Lab, kind: Kind, p: nat)
    requires Inv(s) && Starting(s, kind, p) && 0 < p && Enabled(s, Grant)
    ensures var t := Apply(s, Grant);
            && p <= |t.queue| && (forall n | 0 <= n < p :: t.queue[n] == s.queue[n + 1])
            && (t.op.Some? <==> s.op.Some? || s.queue[0].action.Install?)
  {
  }

  /** No step but a grant moves the caller, and none empties the slot before its turn. */
  lemma StarterOtherwise(s: Lab, kind: Kind, p: nat, step: Step)
    requires Inv(s) && Starting(s, kind, p) && Enabled(s, step) && step != Grant
    ensures var t := Apply(s, step); |s.queue| <= |t.queue| && s.queue == t.queue[..|s.queue|] && (t.op.Some? <==> s.op.Some?)
  {
    SlotInRange(s);
    hide Inv, Apply;
    StepKeeps(s, step);
    SlotParity(s, kind, p);
    StaysInPlace(s, step);
    var t := Apply(s, step);
    assert t.queue[p] == t.queue[..|s.queue|][p];
    SlotParity(t, kind, p);
  }

  lemma SlotParity(s: Lab, kind: Kind, p: nat)
    requires Inv(s) && Starting(s, kind, p)
    ensures s.op.Some? <==> s.Epoch() == s.queue[p].seen + 1
    ensures s.Epoch() <= s.queue[p].seen + 1
  {
    assert RequestOk(s, s.queue[p]);
  }

  lemma StaysInPlace(s: Lab, step: Step)
    requires Inv(s) && Enabled(s, step) && step != Grant
    ensures var t := Apply(s, step);
            && |s.queue| <= |t.queue| && s.queue == t.queue[..|s.queue|]
            && t.Epoch() == s.Epoch() + (if s.op.Some? && t.op.None? then 1 else 0) && (t.op.Some? ==> s.op.Some?)
  {
    match step
    case CancelDone(_) => if s.op.Some? { CancelHoldsSpawn(s); }
    case ClearDone => ClearHeld(s);
    case TaskFinishes(j, cancelled) => TaskFinishesKeeps(s, j, cancelled);
    case _ =>
  }

  /** While such a caller moves up in the queue, nothing changes about whether the slot will be free at its turn. */
  lemma StarterMoves(s: Lab, kind: Kind, p: nat, step: Step)
    requires Inv(s) && Starting(s, kind, p) && Enabled(s, step) && (step == Grant ==> 0 < p)
    ensures var t := Apply(s, step);
            var q := if step == Grant then p - 1 else p;
            Starting(t, kind, q) && (Contested(t, q) <==> Contested(s, p))
  {
    SlotInRange(s);
    hide Inv, Apply;
    var t := Apply(s, step);
    if step == Grant {
      StarterAfterGrant(s, kind, p);
      assert forall n | 0 < n < p :: s.queue[n] == t.queue[n - 1];
    } else {
      StarterOtherwise(s, kind, p, step);
      assert forall n | 0 <= n <= p :: t.queue[n] == t.queue[..|s.queue|][n];
    }
  }

  lemma StarterArrives(s: Lab, step: Step)
    requires Inv(s) && s.op.None? && (step == DeleteArrives || step == CreateArrives)
    ensures Enabled(s, step)
    ensures var t, p, kind := Apply(s, step), |s.queue|, if step == DeleteArrives then Delete else Spawn;
            Starting(t, kind, p) && (Contested(t, p) <==> exists r :: r in s.queue && r.action.Install?)
  {
    var t := Apply(s, step);
    assert t.queue[..|s.queue|] == s.queue;
  }

  lemma {:induction false} StarterQueues(states: seq<Lab>, steps: seq<Step>, i: nat, m: nat)
    requires Run(states, steps) && i < m <= |steps| && (steps[i] == DeleteArrives || steps[i] == CreateArrives)
    requires states[i].op.None? && Grants(steps, i + 1, m) <= |states[i].queue|
    ensures var p := |states[i].queue| - Grants(steps, i + 1, m);
            && Starting(states[m], if steps[i] == DeleteArrives then Delete else Spawn, p)
            && (Contested(states[m], p) <==> exists r :: r in states[i].queue && r.action.Install?)
  {
    hide Inv, Apply, Enabled, Starting, Contested;
    if m == i + 1 {
      RunKeeps(states, steps, i);
      StarterArrives(states[i], steps[i]);
    } else {
      StarterQueues(states, steps, i, m - 1);
      RunKeeps(states, steps, m - 1);
      StarterMoves(states[m - 1], if steps[i] == DeleteArrives then Delete else Spawn,
                   |states[i].queue| - Grants(steps, i + 1, m - 1), steps[m - 1]);
    }
  }

  /**
   A delete or a create that saw no operation in progress starts its own at its turn if and
   only if nobody ahead of it in the queue had asked for the slot; a delete then waits for
   its deletion. Otherwise somebody else's operation is in the slot, and stays there.
   */
  lemma StarterStartsIff(states: seq<Lab>, steps: seq<Step>, i: nat, j: nat)
    requires Run(states, steps) && i < j < |steps| && (steps[i] == DeleteArrives || steps[i] == CreateArrives) && steps[j] == Grant
    requires states[i].op.None? && Grants(steps, i + 1, j) == |states[i].queue|
    ensures states[j].op.None? <==> forall r | r in states[i].queue :: !r.action.Install?
    ensures states[j].op.None? ==>
              var d := |states[j].tasks|;
              && states[j + 1].op == Some(d) && |states[j + 1].tasks| == d + 1 && states[j + 1].tasks[..d] == states[j].tasks
              && (steps[i] == DeleteArrives ==> states[j + 1].Busy() == Some(Delete) && OwnerWaits(states[j + 1], d))
              && (steps[i] == CreateArrives ==> states[j + 1].Busy() == Some(Spawn) && states[j + 1].queue == states[j].queue[1..])
    ensures states[j].op.Some? ==>
              states[j + 1].op == states[j].op && states[j + 1].tasks == states[j].tasks && states[j + 1].queue == states[j].queue[1..]
  {
    hide Inv, OwnerWaits;
    StarterQueues(states, steps, i, j);
    RunKeeps(states, steps, j);
    if states[j].op.None? && steps[i] == DeleteArrives {
      InstallQueuesOwner(states[j]);
    }
  }

  /** A delete of an idle lab, with the lock free and nobody queued: at its grant its deletion is in the slot and it waits for it. */
  lemma IdleDeleteStarts(states: seq<Lab>, steps: seq<Step>, i: nat, j: nat)
    requires Run(states, steps) && i < j < |steps| && steps[i] == DeleteArrives && steps[j] == Grant
    requires states[i].op.None? && states[i].holder.None? && states[i].queue == [] && Grants(steps, i + 1, j) == 0
    ensures states[j + 1].Busy() == Some(Delete) && states[j + 1].op == Some(|states[j].tasks|)
    ensures OwnerWaits(states[j + 1], |states[j].tasks|)
  {
    hide Inv, OwnerWaits;
    StarterStartsIff(states, steps, i, j);
  }

  // ----- progress

  function RequestWork(action: Action): nat {
    match action
    case Cancel => 9
    case Install(Delete) => 7
    case Install(Spawn) => 3
    case Peek(_) => 4
    case Clear(_, _) => 2
  }

  function QueueWork(queue: seq<Request>): nat {
    if queue == [] then 0 else RequestWork(queue[0].action) + QueueWork(queue[1..])
  }

  function PhaseWork(phase: Phase): nat {
    match phase
    case Unstarted => 2
    case Running => 1
    case Finished => 0
  }

  /** The most steps the callers already in the system can still take. */
  function Work(s: Lab): nat {
    QueueWork(s.queue)
    + (if s.holder.None? then 0 else if s.holder.value.action.Cancel? then 8 else 1)
    + 3 * |s.sleepers|
    + (if s.op.Some? && s.op.value < |s.tasks| then PhaseWork(s.tasks[s.op.value].phase) else 0)
  }

  lemma {:induction false} QueueWorkAppend(queue: seq<Request>, r: Request)
    ensures QueueWork(queue + [r]) == QueueWork(queue) + RequestWork(r.action)
  {
    if queue == [] {
      assert queue + [r] == [r];
      assert [r][1..] == [];
    } else {
      assert (queue + [r])[1..] == queue[1..] + [r];
      QueueWorkAppend(queue[1..], r);
    }
  }

  lemma GrantWorks(s: Lab)
    requires Inv(s) && Enabled(s, Grant)
    ensures Work(Apply(s, Grant)) < Work(s)
  {
    QueueWorkAppend(s.queue[1..], Request(Peek(Owner), 2 * |s.tasks| + 1));
    assert QueueWork(s.queue) == RequestWork(s.queue[0].action) + QueueWork(s.queue[1..]);
    assert RequestOk(s, s.queue[0]);
  }

  lemma CancelWorks(s: Lab, stateGone: bool)
    requires Inv(s) && Enabled(s, CancelDone(stateGone))
    ensures Work(Apply(s, CancelDone(stateGone))) < Work(s)
  {
    hide Inv, Granted, ClearFinished, TaskFinished, Woken;
    SlotInRange(s);
    QueueWorkAppend(s.queue, Request(Install(Delete), Emptied(s, Canceller).Epoch()));
  }

  lemma WakeWorks(s: Lab, i: nat)
    requires Inv(s) && Enabled(s, Wake(i))
    ensures Work(Apply(s, Wake(i))) < Work(s)
  {
    hide Inv, Granted, ClearFinished, TaskFinished, CancelFinished;
    SlotInRange(s);
    QueueWorkAppend(s.queue, Request(Clear(s.sleepers[i].role, s.sleepers[i].op), s.Epoch()));
  }

  lemma TaskWorks(s: Lab, step: Step)
    requires Inv(s) && Enabled(s, step) && IsTaskStep(step)
    ensures Work(Apply(s, step)) < Work(s)
  {
    hide Granted, ClearFinished, Woken, CancelFinished;
    if step.TaskFinishes? {
      TaskFinishesKeeps(s, step.op, step.cancelled);
    }
  }

  /** Every step of somebody already in the system uses up some of the work left. */
  lemma StepWorks(s: Lab, step: Step)
    requires Inv(s) && Enabled(s, step) && !IsArrival(step)
    ensures Work(Apply(s, step)) < Work(s)
  {
    match step
    case Grant => GrantWorks(s);
    case CancelDone(stateGone) => CancelWorks(s, stateGone);
    case ClearDone => ClearHeld(s);
    case Wake(i) => WakeWorks(s, i);
    case _ => TaskWorks(s, step);
  }

  /**
   With no new callers, a run from any reachable state makes at most `Work` more steps,
   whatever order they come in.
   */
  lemma {:induction false} RunsDrain(states: seq<Lab>, steps: seq<Step>, i: nat, j: nat)
    requires Run(states, steps) && i <= j < |states|
    requires forall k | i <= k < j :: !IsArrival(steps[k])
    ensures j - i + Work(states[j]) <= Work(states[i])
    decreases j - i
  {
    if i < j {
      hide Inv, Apply, Enabled, Work;
      RunKeeps(states, steps, i);
      StepWorks(states[i], steps[i]);
      RunsDrain(states, steps, i + 1, j);
    }
  }

  /** Somebody holds the lock, queues for it, or sleeps on an operation. */
  predicate SomebodyBlocked(s: Lab) {
    s.holder.Some? || s.queue != [] || s.sleepers != []
  }

  predicate TaskUnfinished(s: Lab) {
    s.op.Some? && s.op.value < |s.tasks| && !s.tasks[s.op.value].phase.Finished?
  }

  predicate IsTaskStep(step: Step) {
    step.TaskStarts? || step.TaskFinishes?
  }

  /** A step some caller can take now, given that the operation has finished. */
  function NextStep(s: Lab): Step {
    if s.holder.Some? && s.holder.value.action.Cancel? then CancelDone(false)
    else if s.holder.Some? then ClearDone
    else if s.queue != [] then Grant
    else Wake(0)
  }

  /** A sleeper whose operation has finished can wake up. */
  lemma FinishedSignals(s: Lab, w: Sleeper)
    requires Inv(s) && SleeperOk(s, w) && s.tasks[w.op].phase.Finished?
    ensures s.tasks[w.op].complete
  {
    assert TaskOk(s.tasks[w.op]);
  }

  /** No deadlock: while anybody is blocked, some caller or the operation's own task can step. */
  lemma NoDeadlock(states: seq<Lab>, steps: seq<Step>, i: nat)
    requires Run(states, steps) && i < |states| && SomebodyBlocked(states[i])
    ensures !TaskUnfinished(states[i]) ==>
              Enabled(states[i], NextStep(states[i])) && !IsArrival(NextStep(states[i]))
    ensures TaskUnfinished(states[i]) ==>
              exists step :: IsTaskStep(step) && Enabled(states[i], step)
  {
    RunKeeps(states, steps, i);
    var s := states[i];
    if TaskUnfinished(s) {
      var k := s.op.value;
      assert Enabled(s, if s.tasks[k].cancelAsked then TaskFinishes(k, true) else if s.tasks[k].phase.Running? then TaskFinishes(k, false) else TaskStarts(k));
    } else if s.holder.Some? {
      assert RequestOk(s, s.holder.value);
    } else if s.queue == [] {
      assert SleeperOk(s, s.sleepers[0]);
      FinishedSignals(s, s.sleepers[0]);
    }
  }

  /**
   When no caller can step, every wait ends at the task of the current operation and none
   at the lock: the lock is free with nobody queued, or held by a `cancel` awaiting that task.
   */
  lemma BlockedOnlyOnTheTask(states: seq<Lab>, steps: seq<Step>, i: nat)
    requires Run(states, steps) && i < |states| && SomebodyBlocked(states[i])
    requires forall step | !IsArrival(step) && !IsTaskStep(step) :: !Enabled(states[i], step)
    ensures var s := states[i];
            && TaskUnfinished(s)
            && (if s.holder.Some? then s.holder.value.action.Cancel? else s.queue == [])
            && forall j | 0 <= j < |s.sleepers| :: s.sleepers[j].op == s.op.value
  {
    RunKeeps(states, steps, i);
    var s := states[i];
    NoDeadlock(states, steps, i);
    assert !Enabled(s, NextStep(s)) by {
      assert !IsArrival(NextStep(s)) && !IsTaskStep(NextStep(s));
    }
    forall j | 0 <= j < |s.sleepers| ensures s.sleepers[j].op == s.op.value {
      assert SleeperOk(s, s.sleepers[j]);
      if s.tasks[s.sleepers[j].op].phase.Finished? {
        FinishedSignals(s, s.sleepers[j]);
        assert Enabled(s, Wake(j));
      }
    }
  }

  // ----- the reconciler

  /** `r` is how the delete that started operation `d` waits for it. */
  predicate OwnersWait(r: Request, d: nat) {
    r == Request(Peek(Owner), 2 * d + 1) || r.action == Clear(Owner, d)
  }

  /** The delete that started operation `d` has not come to the end of its wait. */
  predicate OwnerWaits(s: Lab, d: nat) {
    || (s.holder.Some? && OwnersWait(s.holder.value, d))
    || (exists r :: r in s.queue && OwnersWait(r, d))
    || Sleeper(Owner, d) in s.sleepers
  }

  predicate DeleteQueued(s: Lab) {
    exists r :: r in s.queue && r.action == Install(Delete)
  }

  /** Some delete has yet to start its operation or to come to the end of it. */
  predicate DeletePending(s: Lab) {
    DeleteQueued(s) || exists d | 0 <= d < |s.tasks| :: OwnerWaits(s, d)
  }

  /** What a step can make of those who wait. */
  lemma StepWaiters(s: Lab, step: Step)
    requires Inv(s) && Enabled(s, step)
    ensures var t := Apply(s, step);
            && (if step == Grant then s.queue[1..] <= t.queue else s.queue <= t.queue)
            && (s.holder.Some? && step != ClearDone && !step.CancelDone? ==> t.holder == s.holder)
            && (step.Wake? ==>
                  && t.sleepers == s.sleepers[..step.index] + s.sleepers[step.index + 1..]
                  && t.queue == s.queue + [Request(Clear(s.sleepers[step.index].role, s.sleepers[step.index].op), s.Epoch())])
            && (!step.Wake? ==> s.sleepers <= t.sleepers)
  {
  }

  lemma InPrefix<T>(x: T, a: seq<T>, b: seq<T>)
    requires x in a && a <= b
    ensures x in b
  {
    var n :| 0 <= n < |a| && a[n] == x;
    assert b[n] == x;
  }

  /** Whoever is not served by a grant stays in the queue. */
  lemma StaysInQueue(s: Lab, step: Step, r: Request)
    requires Inv(s) && Enabled(s, step) && r in s.queue && (step == Grant ==> r != s.queue[0])
    ensures s.op.Some? ==> s.op.value < |s.tasks|
    ensures r in Apply(s, step).queue
  {
    SlotInRange(s);
    hide Inv, Apply;
    StepWaiters(s, step);
    if step == Grant {
      assert s.queue == [s.queue[0]] + s.queue[1..];
      InPrefix(r, s.queue[1..], Apply(s, step).queue);
    } else {
      InPrefix(r, s.queue, Apply(s, step).queue);
    }
  }

  lemma OwnerServed(s: Lab, d: nat)
    requires Inv(s) && Enabled(s, Grant) && OwnersWait(s.queue[0], d)
    ensures OwnerWaits(Apply(s, Grant), d)
  {
    var t := Apply(s, Grant);
    assert RequestOk(s, s.queue[0]);
    if s.queue[0].action.Peek? {
      assert s.queue[0].seen == s.Epoch();
      assert Sleeper(Owner, d) == t.sleepers[|s.sleepers|];
    }
  }

  lemma OwnerSleepsOn(s: Lab, step: Step, d: nat)
    requires Inv(s) && Enabled(s, step) && Sleeper(Owner, d) in s.sleepers
    ensures OwnerWaits(Apply(s, step), d)
  {
    SlotInRange(s);
    hide Inv, Apply;
    StepWaiters(s, step);
    var t := Apply(s, step);
    if step.Wake? {
      var i := step.index;
      assert s.sleepers == s.sleepers[..i] + [s.sleepers[i]] + s.sleepers[i + 1..];
      if s.sleepers[i] == Sleeper(Owner, d) {
        var r := Request(Clear(Owner, d), s.Epoch());
        assert r == t.queue[|s.queue|] && OwnersWait(r, d);
      }
    } else {
      InPrefix(Sleeper(Owner, d), s.sleepers, t.sleepers);
    }
  }

  /** The end of an owner's wait stamps the lab and leaves its operation out of the slot. */
  lemma OwnerStamps(s: Lab, d: nat)
    requires Inv(s) && Enabled(s, ClearDone) && s.holder.value.action == Clear(Owner, d)
    ensures Apply(s, ClearDone).lastModified == s.clock + 1 && Apply(s, ClearDone).op != Some(d)
  {
    ClearHeld(s);
  }

  lemma OwnerStays(s: Lab, step: Step, d: nat)
    requires Inv(s) && Enabled(s, step) && OwnerWaits(s, d)
    requires !(step == ClearDone && s.holder.value.action == Clear(Owner, d))
    ensures OwnerWaits(Apply(s, step), d)
  {
    hide Inv, Apply;
    if r :| r in s.queue && OwnersWait(r, d) {
      if step == Grant && r == s.queue[0] {
        OwnerServed(s, d);
      } else {
        StaysInQueue(s, step, r);
      }
    } else if Sleeper(Owner, d) in s.sleepers {
      OwnerSleepsOn(s, step, d);
    } else {
      StepWaiters(s, step);
      HolderIsKind(s);
    }
  }

  lemma HolderIsKind(s: Lab)
    requires Inv(s) && s.holder.Some?
    ensures s.holder.value.action.Cancel? || s.holder.value.action.Clear?
  {
  }

  /** While a delete is in the slot, the one who started it still waits. */
  ghost predicate OwnerKept(s: Lab) {
    s.Busy() == Some(Delete) ==> OwnerWaits(s, s.op.value)
  }

  /** An operation keeps its kind, its end once it has come, and starts out unremoved. */
  predicate TaskKept(s: Lab, t: Lab, k: nat) {
    && |s.tasks| <= |t.tasks| && s.lastModified <= t.lastModified
    && (if k < |s.tasks| then
          && t.tasks[k].kind == s.tasks[k].kind
          && (s.tasks[k].phase.Finished? ==> t.tasks[k].finishedAt == s.tasks[k].finishedAt)
        else k < |t.tasks| ==> t.tasks[k].removedBy.None?)
  }

  lemma GrantKeepsTask(s: Lab, k: nat)
    requires Inv(s) && Enabled(s, Grant)
    ensures TaskKept(s, Apply(s, Grant), k)
  {
    hide CancelFinished, ClearFinished, TaskFinished, Woken, LockOk, OwnersOk;
  }

  lemma EndKeepsTask(s: Lab, step: Step, k: nat)
    requires Inv(s) && Enabled(s, step) && step.TaskFinishes?
    ensures TaskKept(s, Apply(s, step), k)
  {
    hide CancelFinished, ClearFinished, Granted, Woken, LockOk, OwnersOk;
    TaskFinishesKeeps(s, step.op, step.cancelled);
  }

  lemma OtherKeepsTask(s: Lab, step: Step, k: nat)
    requires Inv(s) && Enabled(s, step) && step != Grant && !step.TaskFinishes?
    ensures TaskKept(s, Apply(s, step), k)
  {
    hide Granted, TaskFinished, LockOk, OwnersOk;
  }

  lemma StepTask(s: Lab, step: Step, k: nat)
    requires Inv(s) && Enabled(s, step)
    ensures s.op.Some? ==> s.op.value < |s.tasks|
    ensures TaskKept(s, Apply(s, step), k)
  {
    SlotInRange(s);
    hide Inv, Apply, TaskKept;
    match step
    case Grant => GrantKeepsTask(s, k);
    case TaskFinishes(_, _) => EndKeepsTask(s, step, k);
    case _ => OtherKeepsTask(s, step, k);
  }

  /** What a step can make of the slot. */
  lemma StepSlot(s: Lab, step: Step)
    requires Inv(s) && Enabled(s, step)
    ensures var t := Apply(s, step);
            && (t.op == s.op || (step == Grant && s.op.None?) || (t.op.None? && (step == ClearDone || step.CancelDone?)))
            && (step == CancelDone(false) ==> DeleteQueued(t))
  {
    match step
    case TaskFinishes(j, cancelled) => TaskFinishesKeeps(s, j, cancelled);
    case CancelDone(_) => CancelQueues(s, step.stateGone);
    case ClearDone => ClearHeld(s);
    case _ =>
  }

  lemma CancelQueues(s: Lab, stateGone: bool)
    requires Inv(s) && Enabled(s, CancelDone(stateGone))
    ensures !stateGone ==> DeleteQueued(Apply(s, CancelDone(stateGone)))
    ensures Apply(s, CancelDone(stateGone)).op.None?
  {
    var t := Apply(s, CancelDone(stateGone));
    if !stateGone {
      assert t.queue[|s.queue|].action == Install(Delete);
    }
  }

  lemma InstallQueuesOwner(s: Lab)
    requires Inv(s) && Enabled(s, Grant) && s.op.None?
    ensures var t := Apply(s, Grant);
            t.Busy() == Some(Delete) ==> OwnerWaits(t, t.op.value)
  {
    var t := Apply(s, Grant);
    if t.Busy() == Some(Delete) {
      var r := Request(Peek(Owner), 2 * t.op.value + 1);
      assert r == t.queue[|t.queue| - 1] && OwnersWait(r, t.op.value);
    }
  }

  lemma OwnerKeptStep(s: Lab, step: Step)
    requires Inv(s) && Enabled(s, step) && OwnerKept(s)
    ensures OwnerKept(Apply(s, step))
  {
    SlotInRange(s);
    hide Inv, Apply, OwnerWaits, DeleteQueued;
    if s.op.Some? {
      StepTask(s, step, s.op.value);
    }
    StepSlot(s, step);
    var t := Apply(s, step);
    if t.Busy() == Some(Delete) {
      if t.op == s.op {
        if step == ClearDone && s.holder.value.action == Clear(Owner, s.op.value) {
          OwnerStamps(s, s.op.value);
        } else {
          OwnerStays(s, step, s.op.value);
        }
      } else {
        InstallQueuesOwner(s);
      }
    }
  }

  /** After a spawn was cancelled out of its slot: the lab was stamped since, the slot is taken, or a delete is under way. */
  ghost predicate Pledged(s: Lab, k: nat) {
    k < |s.tasks| && s.tasks[k].kind.Spawn? && s.tasks[k].removedBy == Some(Canceller) ==>
      s.tasks[k].finishedAt < s.lastModified || s.op.Some? || DeletePending(s)
  }

  /** A `cancel` that gives up because the lab is gone, over operation `k` or a later one. */
  predicate GivesUp(s: Lab, step: Step, k: nat) {
    step == CancelDone(true) && s.op.Some? && k <= s.op.value
  }

  lemma DeleteStaysQueued(s: Lab, step: Step)
    requires Inv(s) && Enabled(s, step) && DeleteQueued(s)
    ensures DeleteQueued(Apply(s, step)) || Apply(s, step).op.Some?
  {
    var r :| r in s.queue && r.action == Install(Delete);
    if step == Grant && r == s.queue[0] {
      GrantTakesSlot(s);
    } else {
      hide Inv, Apply;
      StaysInQueue(s, step, r);
    }
  }

  lemma GrantTakesSlot(s: Lab)
    requires Inv(s) && Enabled(s, Grant) && s.queue[0].action.Install?
    ensures Apply(s, Grant).op.Some?
  {
  }

  /** Whoever takes an operation out of the slot stamps the lab, or a delete is pending. */
  lemma SlotEmptied(s: Lab, step: Step, k: nat)
    requires Inv(s) && Enabled(s, step) && OwnerKept(s) && !GivesUp(s, step, k)
    requires s.op.Some? && k <= s.op.value && Apply(s, step).op.None?
    ensures DeletePending(Apply(s, step)) || Apply(s, step).lastModified == s.clock + 1
  {
    hide Inv, Apply;
    SlotInRange(s);
    StepTask(s, step, s.op.value);
    StepSlot(s, step);
    if step == ClearDone {
      JoinersWaitForDeletes(s);
      WaiterEmpties(s);
      if s.holder.value.action.role.Joiner? {
        OwnerStays(s, step, s.op.value);
      }
    }
  }

  /** A `Clear` empties the slot of its own operation only, and all but joiners stamp the lab. */
  lemma WaiterEmpties(s: Lab)
    requires Inv(s) && Enabled(s, ClearDone)
    ensures var t, a := Apply(s, ClearDone), s.holder.value.action;
            && (s.op.Some? && t.op.None? ==> a.op == s.op.value)
            && (!a.role.Joiner? ==> t.lastModified == s.clock + 1)
  {
    ClearHeld(s);
  }

  /** An operation stays out of the slot once it has been taken out. */
  lemma PledgedBefore(s: Lab, step: Step, k: nat)
    requires Inv(s) && Enabled(s, step) && Pledged(s, k) && k < |s.tasks| && s.tasks[k].kind.Spawn?
    requires s.tasks[k].removedBy == Some(Canceller) && !GivesUp(s, step, k) && OwnerKept(s)
    requires s.tasks[k].finishedAt <= s.clock
    ensures var t := Apply(s, step);
            s.tasks[k].finishedAt < t.lastModified || t.op.Some? || DeletePending(t)
  {
    SlotInRange(s);
    RemovedIsEarlier(s, k);
    hide Inv, Apply, GivesUp, OwnerKept;
    var t := Apply(s, step);
    StepTask(s, step, k);
    StepSlot(s, step);
    if s.tasks[k].finishedAt < s.lastModified {
    } else if s.op.Some? {
      if t.op.None? {
        SlotEmptied(s, step, k);
      }
    } else if DeleteQueued(s) {
      DeleteStaysQueued(s, step);
    } else {
      var d :| 0 <= d < |s.tasks| && OwnerWaits(s, d);
      if step == ClearDone && s.holder.value.action == Clear(Owner, d) {
        OwnerStamps(s, d);
      } else {
        OwnerStays(s, step, d);
      }
    }
  }

  lemma RemovedIsEarlier(s: Lab, k: nat)
    requires Inv(s) && k < |s.tasks| && s.tasks[k].removedBy.Some?
    ensures s.op.Some? ==> k < s.op.value
    ensures s.tasks[k].phase.Finished? && s.tasks[k].finishedAt <= s.clock
  {
  }

  /** Unless a `cancel` gives up, every spawn that one took out of its slot stays pledged. */
  lemma PledgedStep(s: Lab, step: Step, k: nat)
    requires Inv(s) && Enabled(s, step) && OwnerKept(s) && Pledged(s, k) && !GivesUp(s, step, k)
    ensures Pledged(Apply(s, step), k)
  {
    hide Apply, DeletePending, OwnerKept;
    var t := Apply(s, step);
    StepTask(s, step, k);
    StepSlot(s, step);
    if k < |s.tasks| {
      StepRemoves(s, step, k);
      if s.tasks[k].removedBy == Some(Canceller) && s.tasks[k].kind.Spawn? {
        RemovedIsEarlier(s, k);
        PledgedBefore(s, step, k);
      } else if t.tasks[k].removedBy == Some(Canceller) && t.tasks[k].kind.Spawn? {
        assert step == CancelDone(false);
        CancelPledges(s);
      }
    }
  }

  lemma CancelPledges(s: Lab)
    requires Inv(s) && Enabled(s, CancelDone(false))
    ensures DeletePending(Apply(s, CancelDone(false)))
  {
    StepSlot(s, CancelDone(false));
  }

  /**
   Whether the lab has a state, before and after a step. Only a spawn that gets the slot gives
   it one and only the end of an owner's wait takes it away. A `cancel` gives up exactly if
   there is none, and a delete of a lab without one is turned away before it queues.
   */
  predicate Remembers(s: Lab, step: Step, had: bool, has: bool) {
    && (step.CancelDone? ==> step.stateGone == !had)
    && (step.DeleteArrives? ==> had)
    && (has && !had ==> step == Grant && s.op.None? && s.queue != [] && s.queue[0].action == Install(Spawn))
    && (had && !has ==>
          step == ClearDone && s.holder.Some? && s.holder.value.action.Clear? && s.holder.value.action.role.Owner?)
  }

  /** Whether the lab has a state, in every state of a run. */
  predicate Recorded(states: seq<Lab>, steps: seq<Step>, has: seq<bool>) {
    && |states| == |steps| + 1 == |has|
    && forall i {:trigger steps[i]} | 0 <= i < |steps| :: Remembers(states[i], steps[i], has[i], has[i + 1])
  }

  /** While the lab has a state, every spawn that a `cancel` took out of its slot stays pledged. */
  lemma RememberedStep(s: Lab, step: Step, had: bool, has: bool, k: nat)
    requires Inv(s) && Enabled(s, step) && OwnerKept(s) && Remembers(s, step, had, has)
    requires had ==> Pledged(s, k)
    ensures has ==> Pledged(Apply(s, step), k)
  {
    hide Inv, Apply, DeletePending, OwnerWaits, OwnerKept;
    SlotInRange(s);
    if has {
      if had {
        PledgedStep(s, step, k);
      } else {
        GrantTakesSlot(s);
      }
    }
  }

  lemma {:induction false} RunPledges(states: seq<Lab>, steps: seq<Step>, has: seq<bool>, i: nat, k: nat)
    requires Run(states, steps) && Recorded(states, steps, has) && i < |states|
    ensures OwnerKept(states[i]) && (has[i] ==> Pledged(states[i], k))
  {
    hide Inv, Apply, Remembers, DeletePending, OwnerWaits;
    if i > 0 {
      RunPledges(states, steps, has, i - 1, k);
      RunKeeps(states, steps, i - 1);
      OwnerKeptStep(states[i - 1], steps[i - 1]);
      RememberedStep(states[i - 1], steps[i - 1], has[i - 1], has[i], k);
    }
  }

  /**
   A spawn that ended after a reconcile's cutoff keeps that reconcile away from the lab,
   unless a delete's `cancel` was what took the ended spawn out of the slot.
   */
  lemma EndedSpawnIsRecent(states: seq<Lab>, steps: seq<Step>, i: nat, k: nat, cutoff: nat)
    requires Run(states, steps) && i < |states| && k < |states[i].tasks|
    requires var t := states[i].tasks[k]; t.kind.Spawn? && t.phase.Finished? && t.finishedAt > cutoff
    requires states[i].tasks[k].removedBy != Some(Canceller)
    ensures states[i].ModifiedSince(cutoff)
  {
    RunKeeps(states, steps, i);
    match states[i].tasks[k].removedBy
    case None =>
    case Some(Waiter) =>
    case Some(Canceller) =>
  }

  /**
   A lab that has a state and whose spawn ended after a reconcile's cutoff is left alone by
   that reconcile, or a delete of it is under way: queued to start its operation, or started
   and waited for. Both can be read off the monitor.
   */
  lemma MissedSpawnIsBeingDeleted(states: seq<Lab>, steps: seq<Step>, has: seq<bool>, i: nat, k: nat, cutoff: nat)
    requires Run(states, steps) && Recorded(states, steps, has) && i < |states| && has[i] && k < |states[i].tasks|
    requires var t := states[i].tasks[k]; t.kind.Spawn? && t.phase.Finished? && t.finishedAt > cutoff
    ensures states[i].ModifiedSince(cutoff) || DeletePending(states[i])
  {
    hide DeletePending, Remembers;
    RunPledges(states, steps, has, i, k);
    if states[i].tasks[k].removedBy != Some(Canceller) {
      EndedSpawnIsRecent(states, steps, i, k, cutoff);
    }
  }

  /** When nobody holds the lock, queues for it or waits, no spawn of a lab with a state that ended after the cutoff is missed. */
  lemma QuietSpawnIsRecent(states: seq<Lab>, steps: seq<Step>, has: seq<bool>, i: nat, k: nat, cutoff: nat)
    requires Run(states, steps) && Recorded(states, steps, has) && i < |states| && has[i] && k < |states[i].tasks|
    requires !SomebodyBlocked(states[i])
    requires var t := states[i].tasks[k]; t.kind.Spawn? && t.phase.Finished? && t.finishedAt > cutoff
    ensures states[i].ModifiedSince(cutoff)
  {
    hide Remembers;
    MissedSpawnIsBeingDeleted(states, steps, has, i, k, cutoff);
  }
}
