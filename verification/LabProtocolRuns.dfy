/** Concrete runs of the lab operation protocol that show where a promise stops holding. */
module LabProtocolRuns {
  import opened Wrappers
  import opened LabProtocol
  import opened LabProtocolTheorems

  const SPAWNING := Task(Spawn, Running, false, false, false, 0, None)
  const STOPPING := Task(Spawn, Running, true, false, false, 0, None)
  const STOPPED := Task(Spawn, Finished, true, true, true, 9, None)
  const GONE := Task(Spawn, Finished, true, true, true, 9, Some(Canceller))
  const DELETING := Task(Delete, Running, false, false, false, 0, None)
  const DELETED := Task(Delete, Finished, false, false, true, 22, None)
  const CLEARED := Task(Delete, Finished, false, false, true, 22, Some(Waiter))
  const SPAWNED := Task(Spawn, Finished, true, false, true, 7, None)
  const TAKEN := Task(Spawn, Finished, true, false, true, 7, Some(Canceller))

  const CANCEL := Request(Cancel, 1)
  const INSTALL := Request(Install(Delete), 2)
  const OWNER := Request(Peek(Owner), 3)
  const JOINER := Request(Peek(Joiner), 3)
  const OWNER_CLEARS := Request(Clear(Owner, 1), 3)
  const JOINER_CLEARS := Request(Clear(Joiner, 1), 3)

  const J0 := NEW
  const J1 := Lab(None, [], None, [Request(Install(Spawn), 0)], [], 0, 1)
  const J2 := Lab(Some(0), [FreshTask(Spawn)], None, [], [], 0, 2)
  const J3 := Lab(Some(0), [SPAWNING], None, [], [], 0, 3)
  const J4 := Lab(Some(0), [SPAWNING], None, [CANCEL], [], 0, 4)
  const J5 := Lab(Some(0), [STOPPING], Some(CANCEL), [], [], 0, 5)
  const J6 := Lab(Some(0), [STOPPING], Some(CANCEL), [CANCEL], [], 0, 6)
  const J7 := Lab(Some(0), [STOPPING], Some(CANCEL), [CANCEL, CANCEL], [], 0, 7)
  const J8 := Lab(Some(0), [STOPPING], Some(CANCEL), [CANCEL, CANCEL, CANCEL], [], 0, 8)
  const J9 := Lab(Some(0), [STOPPED], Some(CANCEL), [CANCEL, CANCEL, CANCEL], [], 0, 9)
  const J10 := Lab(None, [GONE], None, [CANCEL, CANCEL, CANCEL, INSTALL], [], 0, 10)
  const J11 := Lab(None, [GONE], Some(CANCEL), [CANCEL, CANCEL, INSTALL], [], 0, 11)
  const J12 := Lab(None, [GONE], None, [CANCEL, CANCEL, INSTALL, INSTALL], [], 0, 12)
  const J13 := Lab(None, [GONE], Some(CANCEL), [CANCEL, INSTALL, INSTALL], [], 0, 13)
  const J14 := Lab(None, [GONE], None, [CANCEL, INSTALL, INSTALL, INSTALL], [], 0, 14)
  const J15 := Lab(None, [GONE], Some(CANCEL), [INSTALL, INSTALL, INSTALL], [], 0, 15)
  const J16 := Lab(None, [GONE], None, [INSTALL, INSTALL, INSTALL, INSTALL], [], 0, 16)
  const J17 := Lab(Some(1), [GONE, FreshTask(Delete)], None, [INSTALL, INSTALL, INSTALL, OWNER], [], 0, 17)
  const J18 := Lab(Some(1), [GONE, DELETING], None, [INSTALL, INSTALL, INSTALL, OWNER], [], 0, 18)
  const J19 := Lab(Some(1), [GONE, DELETING], None, [INSTALL, INSTALL, OWNER], [], 0, 19)
  const J20 := Lab(Some(1), [GONE, DELETING], None, [INSTALL, INSTALL, OWNER, JOINER], [], 0, 20)
  const J21 := Lab(Some(1), [GONE, DELETING], None, [INSTALL, OWNER, JOINER], [], 0, 21)
  const J22 := Lab(Some(1), [GONE, DELETED], None, [INSTALL, OWNER, JOINER], [], 0, 22)
  const J23 := Lab(Some(1), [GONE, DELETED], None, [OWNER, JOINER], [], 0, 23)
  const J24 := Lab(Some(1), [GONE, DELETED], None, [JOINER], [Sleeper(Owner, 1)], 0, 24)
  const J25 := Lab(Some(1), [GONE, DELETED], None, [JOINER, OWNER_CLEARS], [], 0, 25)
  const J26 := Lab(Some(1), [GONE, DELETED], None, [JOINER, OWNER_CLEARS, JOINER], [], 0, 26)
  const J27 := Lab(Some(1), [GONE, DELETED], None, [OWNER_CLEARS, JOINER], [Sleeper(Joiner, 1)], 0, 27)
  const J28 := Lab(Some(1), [GONE, DELETED], None, [OWNER_CLEARS, JOINER, JOINER_CLEARS], [], 0, 28)
  const J29 := Lab(Some(1), [GONE, DELETED], Some(OWNER_CLEARS), [JOINER, JOINER_CLEARS], [], 0, 29)
  const J30 := Lab(None, [GONE, CLEARED], None, [JOINER, JOINER_CLEARS], [], 30, 30)
  const J31 := Lab(None, [GONE, CLEARED], None, [JOINER_CLEARS], [], 30, 31)

  const JOINER_STEPS := [
    CreateArrives, Grant, TaskStarts(0), DeleteArrives, Grant, DeleteArrives,
    DeleteArrives, DeleteArrives, TaskFinishes(0, true), CancelDone(false), Grant, CancelDone(false),
    Grant, CancelDone(false), Grant, CancelDone(false), Grant, TaskStarts(1),
    Grant, DeleteArrives, Grant, TaskFinishes(1, false), Grant, Grant,
    Wake(0), DeleteArrives, Grant, Wake(0), Grant, ClearDone,
    Grant]

  const JOINER_STATES: seq<Lab> := [
    J0, J1, J2, J3, J4, J5, J6, J7, J8, J9, J10, J11,
    J12, J13, J14, J15, J16, J17, J18, J19, J20, J21, J22, J23,
    J24, J25, J26, J27, J28, J29, J30, J31]

  lemma JoinerMoves1()
    ensures Moves(J0, CreateArrives, J1)
    ensures Moves(J1, Grant, J2)
    ensures Moves(J2, TaskStarts(0), J3)
  {
    hide CancelFinished, ClearFinished, TaskFinished, Woken;
  }

  lemma JoinerMoves2()
    ensures Moves(J3, DeleteArrives, J4)
    ensures Moves(J4, Grant, J5)
    ensures Moves(J5, DeleteArrives, J6)
  {
    hide CancelFinished, ClearFinished, TaskFinished, Woken;
  }

  lemma JoinerMoves3()
    ensures Moves(J6, DeleteArrives, J7)
    ensures Moves(J7, DeleteArrives, J8)
    ensures Moves(J8, TaskFinishes(0, true), J9)
  {
    hide Granted, CancelFinished, ClearFinished, Woken;
  }

  lemma JoinerMoves4()
    ensures Moves(J9, CancelDone(false), J10)
    ensures Moves(J10, Grant, J11)
    ensures Moves(J11, CancelDone(false), J12)
  {
    hide ClearFinished, TaskFinished, Woken;
  }

  lemma JoinerMoves5()
    ensures Moves(J12, Grant, J13)
    ensures Moves(J13, CancelDone(false), J14)
  {
    hide ClearFinished, TaskFinished, Woken;
  }

  lemma JoinerMoves6()
    ensures Moves(J14, Grant, J15)
    ensures Moves(J15, CancelDone(false), J16)
    ensures Moves(J16, Grant, J17)
  {
    hide ClearFinished, TaskFinished, Woken;
  }

  lemma JoinerMoves7()
    ensures Moves(J17, TaskStarts(1), J18)
    ensures Moves(J18, Grant, J19)
    ensures Moves(J19, DeleteArrives, J20)
  {
    hide CancelFinished, ClearFinished, TaskFinished, Woken;
  }

  lemma JoinerMoves8()
    ensures Moves(J20, Grant, J21)
    ensures Moves(J21, TaskFinishes(1, false), J22)
  {
    hide CancelFinished, ClearFinished, Woken;
  }

  lemma JoinerMoves9()
    ensures Moves(J22, Grant, J23)
    ensures Moves(J23, Grant, J24)
    ensures Moves(J24, Wake(0), J25)
  {
    hide CancelFinished, ClearFinished, TaskFinished;
  }

  lemma JoinerMoves10()
    ensures Moves(J25, DeleteArrives, J26)
    ensures Moves(J26, Grant, J27)
    ensures Moves(J27, Wake(0), J28)
  {
    hide CancelFinished, ClearFinished, TaskFinished;
  }

  lemma JoinerMoves11()
    ensures Moves(J28, Grant, J29)
    ensures Moves(J29, ClearDone, J30)
    ensures Moves(J30, Grant, J31)
  {
    hide CancelFinished, TaskFinished, Woken;
  }

  lemma JoinerIsRun()
    ensures Run(JOINER_STATES, JOINER_STEPS)
  {
    JoinerMoves1();
    JoinerMoves2();
    JoinerMoves3();
    JoinerMoves4();
    JoinerMoves5();
    JoinerMoves6();
    JoinerMoves7();
    JoinerMoves8();
    JoinerMoves9();
    JoinerMoves10();
    JoinerMoves11();
    hide Moves;
  }

  lemma JoinerPrompt1()
    ensures forall i {:trigger JOINER_STEPS[i]} | 0 <= i < 10 ::
              PromptAfter(JOINER_STATES[i], JOINER_STEPS[i], JOINER_STATES[i + 1], JOINER_STEPS[i + 1])
  {
  }

  lemma JoinerPrompt2()
    ensures forall i {:trigger JOINER_STEPS[i]} | 10 <= i < 20 ::
              PromptAfter(JOINER_STATES[i], JOINER_STEPS[i], JOINER_STATES[i + 1], JOINER_STEPS[i + 1])
  {
  }

  lemma JoinerPrompt3()
    ensures forall i {:trigger JOINER_STEPS[i]} | 20 <= i < 30 ::
              PromptAfter(JOINER_STATES[i], JOINER_STEPS[i], JOINER_STATES[i + 1], JOINER_STEPS[i + 1])
  {
  }

  lemma JoinerIsPrompt()
    ensures Prompt(JOINER_STATES, JOINER_STEPS)
  {
    hide PromptAfter;
    JoinerPrompt1();
    JoinerPrompt2();
    JoinerPrompt3();
  }

  /** The lab has a state from the start of the spawn until the end of the owner's wait. */
  const JOINER_HAS: seq<bool> := seq(32, i => 2 <= i < 30)

  lemma JoinerIsRecorded()
    ensures Recorded(JOINER_STATES, JOINER_STEPS, JOINER_HAS)
  {
  }

  /**
   `delete_lab` promises that every caller waits for the same deletion. Here the last delete
   to arrive sees the deletion in progress and finds nothing left to wait for. Four deletes
   cancel a spawn and queue to start a deletion, so that the owner of the one that starts
   queues behind the others to wait for it. While the deletion runs, two of those get the
   lock and are turned away, and a joiner arrives; it ends before the third gets its turn.
   The joiner lets the owner ask for the lock again before the last delete arrives.
   */
  lemma JoinerCanMissItsDelete()
    ensures Run(JOINER_STATES, JOINER_STEPS) && Prompt(JOINER_STATES, JOINER_STEPS)
    ensures Recorded(JOINER_STATES, JOINER_STEPS, JOINER_HAS)
    ensures JOINER_STEPS[17] == TaskStarts(1) && JOINER_STEPS[21] == TaskFinishes(1, false) && Grants(JOINER_STEPS, 18, 21) == 2
    ensures JOINER_STEPS[25] == DeleteArrives && JOINER_STATES[25].Busy() == Some(Delete)
    ensures !Stays(JOINER_STATES[25], 1, |JOINER_STATES[25].queue|)
    ensures JOINER_STEPS[30] == Grant && Grants(JOINER_STEPS, 26, 30) == |JOINER_STATES[25].queue|
    ensures JOINER_STATES[30].queue[0].action == Peek(Joiner) && JOINER_STATES[30].op.None?
  {
    JoinerIsRun();
    JoinerIsPrompt();
    JoinerIsRecorded();
    hide Moves, Prompt, Recorded;
    assert ClearsOp(J25.queue[1], 1);
    assert Grants(JOINER_STEPS, 18, 20) == 1;
    assert Grants(JOINER_STEPS, 26, 28) == 1;
  }

  const M7 := Lab(Some(0), [SPAWNED], Some(CANCEL), [CANCEL], [], 0, 7)
  const M8 := Lab(None, [TAKEN], None, [CANCEL, INSTALL], [], 0, 8)

  const MISSED_STEPS := [
    CreateArrives, Grant, TaskStarts(0), DeleteArrives, Grant, DeleteArrives,
    TaskFinishes(0, false), CancelDone(false)]

  const MISSED_STATES: seq<Lab> := [
    J0, J1, J2, J3, J4, J5, J6, M7, M8]

  lemma MissedMoves1()
    ensures Moves(J6, TaskFinishes(0, false), M7)
    ensures Moves(M7, CancelDone(false), M8)
  {
    hide Granted, ClearFinished, Woken;
  }

  lemma MissedIsRun()
    ensures Run(MISSED_STATES, MISSED_STEPS)
  {
    JoinerMoves1();
    JoinerMoves2();
    MissedMoves1();
    hide Moves;
  }

  lemma MissedIsPrompt()
    ensures Prompt(MISSED_STATES, MISSED_STEPS)
  {
  }

  const MISSED_HAS: seq<bool> := seq(9, i => 2 <= i)

  lemma MissedIsRecorded()
    ensures Recorded(MISSED_STATES, MISSED_STEPS, MISSED_HAS)
  {
  }

  /**
   A spawn that outlives its cancellation, because the task it awaits swallows it, ends after
   the cutoff and is taken out of its slot by that `cancel`. A second delete is ahead of the
   first one's deletion in the queue, so the lab looks untouched although a delete is pending.
   */
  lemma EndedSpawnCanBeMissed()
    ensures Run(MISSED_STATES, MISSED_STEPS) && Prompt(MISSED_STATES, MISSED_STEPS)
    ensures Recorded(MISSED_STATES, MISSED_STEPS, MISSED_HAS) && MISSED_HAS[8]
    ensures var s, cutoff := MISSED_STATES[8], 6;
            && s.tasks[0].kind.Spawn? && s.tasks[0].phase.Finished? && !s.tasks[0].cancelled
            && s.tasks[0].finishedAt > cutoff && !s.ModifiedSince(cutoff) && DeleteQueued(s)
  {
    MissedIsRun();
    MissedIsPrompt();
    MissedIsRecorded();
    hide Moves, Prompt, Recorded;
    assert M8.queue[1].action == Install(Delete);
  }
}
