/** The orchestrator's task scheduler: lock-aware dispatch, retries, stop-on-failure and resume. */
module Scheduler {

  import opened TaskRuns

  datatype RunningTask = RunningTask(slotId: int, taskId: int)

  /** How a worker exited, and the clock when that is noticed. */
  datatype Exited = Exited(success: bool, exitCode: int, clockMs: int)

  /** What a round of the main loop finds: the time, and the workers, by task, that have exited. */
  datatype Observed = Observed(nowMs: int, exits: map<int, Exited>)

  /** The running tasks whose workers have not exited, in their order. */
  function Still(running: seq<RunningTask>, exits: map<int, Exited>): seq<RunningTask> {
    if running == [] then []
    else (if running[0].taskId in exits then [] else [running[0]]) + Still(running[1..], exits)
  }

  /** The step books the exit of the task's worker. */
  predicate ExitOf(s: Step, base: seq<Task>, id: int, exits: map<int, Exited>) {
    && s.Exit? && s.i < |base| && base[s.i].taskId == id
    && id in exits && exits[id] == Exited(s.success, s.exitCode, s.clockMs)
  }

  predicate Booked(steps: seq<Step>, base: seq<Task>, id: int, exits: map<int, Exited>) {
    exists k :: 0 <= k < |steps| && ExitOf(steps[k], base, id, exits)
  }

  lemma BookedMore(steps: seq<Step>, s: Step, base: seq<Task>, id: int, exits: map<int, Exited>)
    requires Booked(steps, base, id, exits) || ExitOf(s, base, id, exits)
    ensures Booked(steps + [s], base, id, exits)
  {
    if k :| 0 <= k < |steps| && ExitOf(steps[k], base, id, exits) {
      assert (steps + [s])[k] == steps[k];
    } else {
      assert (steps + [s])[|steps|] == s;
    }
  }

  lemma BookedJoin(steps: seq<Step>, more: seq<Step>, base: seq<Task>, id: int, exits: map<int, Exited>)
    requires Booked(steps, base, id, exits)
    ensures Booked(steps + more, base, id, exits)
  {
    var k :| 0 <= k < |steps| && ExitOf(steps[k], base, id, exits);
    assert (steps + more)[k] == steps[k];
  }

  predicate IsTaskRunnable(t: Task, heldLocks: set<string>, nowMs: int) {
    && t.status == Pending
    && t.nextRunAtMs <= nowMs
    && forall l :: l in t.resourceLocks ==> l !in heldLocks
  }

  // ---------------------------------------------------------------- locks and running tasks

  predicate UniqueIds(tasks: seq<Task>) {
    forall i, j :: 0 <= i < j < |tasks| ==> tasks[i].taskId != tasks[j].taskId
  }

  /** No two running tasks share a lock. */
  predicate LocksApart(tasks: seq<Task>) {
    forall i, j ::
      0 <= i < |tasks| && 0 <= j < |tasks| && i != j && tasks[i].status == Running && tasks[j].status == Running
      ==> Apart(tasks[i], tasks[j])
  }

  /** heldLocks is the union of the locks of the running tasks. */
  predicate LocksHeld(tasks: seq<Task>, heldLocks: set<string>) {
    && (forall i, l :: 0 <= i < |tasks| && tasks[i].status == Running && l in tasks[i].resourceLocks ==> l in heldLocks)
    && (forall l :: l in heldLocks ==> exists i ::
        0 <= i < |tasks| && tasks[i].status == Running && l in tasks[i].resourceLocks)
  }

  predicate IsRunning(tasks: seq<Task>, id: int) {
    exists i :: 0 <= i < |tasks| && tasks[i].taskId == id && tasks[i].status == Running
  }

  predicate InSlot(running: seq<RunningTask>, id: int) {
    exists k :: 0 <= k < |running| && running[k].taskId == id
  }

  /** The slots hold exactly the running tasks, once each. */
  ghost predicate SlotsMatch(tasks: seq<Task>, running: seq<RunningTask>) {
    && (forall k, l :: 0 <= k < l < |running| ==> running[k].taskId != running[l].taskId)
    && (forall id :: InSlot(running, id) <==> IsRunning(tasks, id))
  }

  ghost predicate Exclusive(tasks: seq<Task>, running: seq<RunningTask>, heldLocks: set<string>) {
    UniqueIds(tasks) && LocksApart(tasks) && LocksHeld(tasks, heldLocks) && SlotsMatch(tasks, running)
  }

  function Locks(t: Task): set<string> { set l | l in t.resourceLocks }

  /** Changing a task that neither was nor becomes running keeps the bookkeeping. */
  lemma Idle(tasks: seq<Task>, running: seq<RunningTask>, held: set<string>, i: nat, t: Task)
    requires Exclusive(tasks, running, held) && i < |tasks|
    requires tasks[i].status != Running && t.status != Running && t.taskId == tasks[i].taskId
    ensures Exclusive(tasks[i := t], running, held)
  {
    var tasks' := tasks[i := t];
    forall id
      ensures IsRunning(tasks', id) <==> IsRunning(tasks, id)
    {
      RunningUpdate(tasks, i, t, id);
    }
    HeldIdle(tasks, held, i, t);
  }

  lemma RunningUpdate(tasks: seq<Task>, i: nat, t: Task, id: int)
    requires UniqueIds(tasks) && i < |tasks| && t.taskId == tasks[i].taskId
    ensures id != t.taskId ==> (IsRunning(tasks[i := t], id) <==> IsRunning(tasks, id))
    ensures IsRunning(tasks[i := t], t.taskId) <==> t.status == Running
    ensures IsRunning(tasks, t.taskId) <==> tasks[i].status == Running
  {
    var tasks' := tasks[i := t];
    if IsRunning(tasks, id) && id != t.taskId {
      var k :| 0 <= k < |tasks| && tasks[k].taskId == id && tasks[k].status == Running;
      assert tasks'[k] == tasks[k];
    }
    if t.status == Running { assert tasks'[i].taskId == t.taskId; }
    if tasks[i].status == Running { assert tasks[i].taskId == t.taskId; }
  }

  lemma HeldIdle(tasks: seq<Task>, held: set<string>, i: nat, t: Task)
    requires LocksHeld(tasks, held) && i < |tasks| && tasks[i].status != Running && t.status != Running
    ensures LocksHeld(tasks[i := t], held)
  {
    var tasks' := tasks[i := t];
    forall l | l in held
      ensures exists k :: 0 <= k < |tasks'| && tasks'[k].status == Running && l in tasks'[k].resourceLocks
    {
      var k :| 0 <= k < |tasks| && tasks[k].status == Running && l in tasks[k].resourceLocks;
      assert tasks'[k] == tasks[k];
    }
  }

  /** Dispatching a task whose locks are all free. */
  lemma Dispatched(tasks: seq<Task>, running: seq<RunningTask>, held: set<string>, i: nat, t: Task, slot: int)
    requires Exclusive(tasks, running, held) && i < |tasks|
    requires tasks[i].status != Running && t.status == Running && t.taskId == tasks[i].taskId
    requires forall l :: l in t.resourceLocks ==> l !in held
    ensures Exclusive(tasks[i := t], running + [RunningTask(slot, t.taskId)], held + Locks(t))
  {
    var tasks' := tasks[i := t];
    var running' := running + [RunningTask(slot, t.taskId)];
    forall id
      ensures InSlot(running', id) <==> IsRunning(tasks', id)
    {
      RunningUpdate(tasks, i, t, id);
      SlotAppend(running, RunningTask(slot, t.taskId), id);
    }
    assert !InSlot(running, t.taskId) by { RunningUpdate(tasks, i, t, t.taskId); }
    HeldDispatched(tasks, held, i, t);
  }

  lemma SlotAppend(running: seq<RunningTask>, r: RunningTask, id: int)
    ensures InSlot(running + [r], id) <==> InSlot(running, id) || id == r.taskId
  {
    if InSlot(running, id) {
      var k :| 0 <= k < |running| && running[k].taskId == id;
      assert (running + [r])[k].taskId == id;
    }
    assert (running + [r])[|running|] == r;
  }

  lemma HeldDispatched(tasks: seq<Task>, held: set<string>, i: nat, t: Task)
    requires LocksApart(tasks) && LocksHeld(tasks, held) && i < |tasks| && tasks[i].status != Running &&
        t.status == Running
    requires forall l :: l in t.resourceLocks ==> l !in held
    ensures LocksApart(tasks[i := t]) && LocksHeld(tasks[i := t], held + Locks(t))
  {
    var tasks' := tasks[i := t];
    forall l | l in held + Locks(t)
      ensures exists k :: 0 <= k < |tasks'| && tasks'[k].status == Running && l in tasks'[k].resourceLocks
    {
      if l in held {
        var k :| 0 <= k < |tasks| && tasks[k].status == Running && l in tasks[k].resourceLocks;
        assert tasks'[k] == tasks[k];
      } else {
        assert tasks'[i] == t;
      }
    }
  }

  /** Finishing a task: removing its locks frees no lock of another running task. */
  lemma Finished(tasks: seq<Task>, running: seq<RunningTask>, held: set<string>, i: nat, t: Task, k: nat)
    requires Exclusive(tasks, running, held) && i < |tasks| && k < |running|
    requires tasks[i].status == Running && t.status != Running && t.taskId == tasks[i].taskId == running[k].taskId
    ensures Exclusive(tasks[i := t], running[..k] + running[k + 1..], held - Locks(tasks[i]))
  {
    var tasks' := tasks[i := t];
    var running' := running[..k] + running[k + 1..];
    forall id
      ensures InSlot(running', id) <==> IsRunning(tasks', id)
    {
      RunningUpdate(tasks, i, t, id);
      SlotRemove(running, k, id);
    }
    HeldFinished(tasks, held, i, t);
  }

  lemma SlotRemove(running: seq<RunningTask>, k: nat, id: int)
    requires k < |running| && forall a, b :: 0 <= a < b < |running| ==> running[a].taskId != running[b].taskId
    ensures InSlot(running[..k] + running[k + 1..], id) <==> InSlot(running, id) && id != running[k].taskId
  {
    var running' := running[..k] + running[k + 1..];
    if InSlot(running, id) && id != running[k].taskId {
      var j :| 0 <= j < |running| && running[j].taskId == id;
      assert running'[if j < k then j else j - 1].taskId == id;
    }
  }

  lemma HeldFinished(tasks: seq<Task>, held: set<string>, i: nat, t: Task)
    requires LocksApart(tasks) && LocksHeld(tasks, held) && i < |tasks| && tasks[i].status == Running &&
        t.status != Running
    ensures LocksApart(tasks[i := t]) && LocksHeld(tasks[i := t], held - Locks(tasks[i]))
  {
    var tasks' := tasks[i := t];
    forall l | l in held - Locks(tasks[i])
      ensures exists k :: 0 <= k < |tasks'| && tasks'[k].status == Running && l in tasks'[k].resourceLocks
    {
      var k :| 0 <= k < |tasks| && tasks[k].status == Running && l in tasks[k].resourceLocks;
      assert tasks'[k] == tasks[k];
    }
  }

  // ---------------------------------------------------------------- attempts

  /** What a run, started with base, may have made of a task. A task that is pending either was not
      dispatched in this run or may still be retried. */
  predicate WithinBudget(base: Task, t: Task) {
    && t.taskId == base.taskId && t.resourceLocks == base.resourceLocks && t.maxRetries == base.maxRetries
    && base.attemptsMade <= t.attemptsMade <= Max(base.attemptsMade + 1, base.maxRetries + 1)
    && (t.status == Pending ==> t.attemptsMade == base.attemptsMade || ShouldRetry(t))
  }

  predicate AllWithinBudget(base: seq<Task>, tasks: seq<Task>) {
    |base| == |tasks| && forall i :: 0 <= i < |tasks| ==> WithinBudget(base[i], tasks[i])
  }

  /** How a task list loaded from a saved state is normalised. */
  function Normalised(t: Task): Task {
    if t.status == Succeeded || (t.status == Failed && !ShouldRetry(t)) then t else t.(status := Pending)
  }

  /** t is the saved task if that succeeded or failed with its attempts used up, and pending otherwise. */
  predicate AsSaved(saved: Task, t: Task) {
    && t == saved.(status := t.status)
    && (t.status == Succeeded <==> saved.status == Succeeded)
    && (t.status == Failed <==> saved.status == Failed && saved.attemptsMade > saved.maxRetries)
    && t.status != Running
  }

  /** A task as it is created for a workflow file. */
  predicate Fresh(t: Task) {
    t.attemptsMade == 0 && t.status == Pending
  }

  // ---------------------------------------------------------------- one task changes

  /** All of the scheduler's bookkeeping: locks and slots, the two counters, the attempts. */
  ghost predicate Books(base: seq<Task>, tasks: seq<Task>, running: seq<RunningTask>, held: set<string>,
                        succeeded: int, failed: int, dispatches: int) {
    && Exclusive(tasks, running, held)
    && succeeded == Sum(IsSucceeded, tasks) && failed == Sum(IsFailed, tasks)
    && AllWithinBudget(base, tasks)
    && dispatches == Sum(Attempts, tasks) - Sum(Attempts, base)
    && |running| == Sum(IsBusy, tasks)
  }

  lemma SumsUpdate(tasks: seq<Task>, i: nat, t: Task)
    requires i < |tasks|
    ensures Sum(IsSucceeded, tasks[i := t]) == Sum(IsSucceeded, tasks) - IsSucceeded(tasks[i]) + IsSucceeded(t)
    ensures Sum(IsFailed, tasks[i := t]) == Sum(IsFailed, tasks) - IsFailed(tasks[i]) + IsFailed(t)
    ensures Sum(Attempts, tasks[i := t]) == Sum(Attempts, tasks) - tasks[i].attemptsMade + t.attemptsMade
    ensures Sum(IsBusy, tasks[i := t]) == Sum(IsBusy, tasks) - IsBusy(tasks[i]) + IsBusy(t)
  {
    SumUpdate(IsSucceeded, tasks, i, t);
    SumUpdate(IsFailed, tasks, i, t);
    SumUpdate(Attempts, tasks, i, t);
    SumUpdate(IsBusy, tasks, i, t);
  }

  predicate FailedAttempt(t: Task, t': Task, exitCode: int) {
    if ShouldRetry(t) then t' == t.(status := Pending, lastExitCode := exitCode, nextRunAtMs := t'.nextRunAtMs)
    else t' == t.(status := Failed, lastExitCode := exitCode)
  }

  lemma BooksSpawned(base: seq<Task>, tasks: seq<Task>, running: seq<RunningTask>, held: set<string>,
                     succeeded: int, failed: int, dispatches: int, i: nat, slot: int)
    requires Books(base, tasks, running, held, succeeded, failed, dispatches)
    requires i < |tasks| && tasks[i].status == Pending && forall l :: l in tasks[i].resourceLocks ==> l !in held
    ensures Books(base, tasks[i := Spawned(tasks[i])], running + [RunningTask(slot, tasks[i].taskId)],
                  held + Locks(tasks[i]), succeeded, failed, dispatches + 1)
  {
    var t := Spawned(tasks[i]);
    SumsUpdate(tasks, i, t);
    Dispatched(tasks, running, held, i, t, slot);
    hide Exclusive, Sum;
    assert WithinBudget(base[i], tasks[i]);
  }

  /** The worker process did not start. */
  lemma BooksNotStarted(base: seq<Task>, tasks: seq<Task>, running: seq<RunningTask>, held: set<string>,
                        succeeded: int, failed: int, dispatches: int, i: nat, t: Task)
    requires Books(base, tasks, running, held, succeeded, failed, dispatches)
    requires i < |tasks| && tasks[i].status == Pending && FailedAttempt(Spawned(tasks[i]), t, -1)
    ensures Books(base, tasks[i := t], running, held, succeeded, failed + IsFailed(t), dispatches + 1)
  {
    SumsUpdate(tasks, i, t);
    Idle(tasks, running, held, i, t);
    hide Exclusive, Sum;
    assert WithinBudget(base[i], tasks[i]);
  }

  lemma BooksFinished(base: seq<Task>, tasks: seq<Task>, running: seq<RunningTask>, held: set<string>,
                      succeeded: int, failed: int, dispatches: int, i: nat, t: Task, k: nat, exitCode: int)
    requires Books(base, tasks, running, held, succeeded, failed, dispatches)
    requires i < |tasks| && k < |running| && tasks[i].status == Running && tasks[i].taskId == running[k].taskId
    requires t == tasks[i].(status := Succeeded, lastExitCode := exitCode) || FailedAttempt(tasks[i], t, exitCode)
    ensures Books(base, tasks[i := t], running[..k] + running[k + 1..], held - Locks(tasks[i]),
                  succeeded + IsSucceeded(t), failed + IsFailed(t), dispatches)
  {
    SumsUpdate(tasks, i, t);
    Finished(tasks, running, held, i, t, k);
    hide Exclusive, Sum;
    assert WithinBudget(base[i], tasks[i]);
  }

  // ---------------------------------------------------------------- halting

  lemma BooksSkip(base: seq<Task>, tasks: seq<Task>, running: seq<RunningTask>, held: set<string>,
                  succeeded: int, failed: int, dispatches: int, i: nat)
    requires Books(base, tasks, running, held, succeeded, failed, dispatches) && i < |tasks|
    ensures Books(base, tasks[i := Skipped(tasks[i])], running, held, succeeded, failed + IsPending(tasks[i]),
        dispatches)
  {
    var t := Skipped(tasks[i]);
    if tasks[i].status == Pending {
      SumsUpdate(tasks, i, t);
      Idle(tasks, running, held, i, t);
      hide Exclusive, Sum;
      assert WithinBudget(base[i], tasks[i]);
    } else {
      assert tasks[i := t] == tasks;
    }
  }

  lemma {:induction false} BooksSkipped(base: seq<Task>, tasks: seq<Task>, running: seq<RunningTask>, held: set<string>,
                                        succeeded: int, failed: int, dispatches: int, n: nat)
    requires Books(base, tasks, running, held, succeeded, failed, dispatches) && n <= |tasks|
    ensures Books(base, SkippedTo(tasks, n), running, held, succeeded, failed + Sum(IsPending, tasks[..n]), dispatches)
  {
    hide Books;
    if n == 0 {
      assert SkippedTo(tasks, 0) == tasks;
    } else {
      BooksSkipped(base, tasks, running, held, succeeded, failed, dispatches, n - 1);
      var before := SkippedTo(tasks, n - 1);
      assert SkippedTo(tasks, n) == before[n - 1 := Skipped(before[n - 1])];
      assert tasks[..n][..n - 1] == tasks[..n - 1];
      BooksSkip(base, before, running, held, succeeded, failed + Sum(IsPending, tasks[..n - 1]), dispatches, n - 1);
    }
  }

  // ---------------------------------------------------------------- the scheduler

  /** The resume loop: counts finished tasks and makes the others pending again. */
  method LoadTasks(savedTasks: seq<Task>) returns (tasks: seq<Task>, succeeded: int, failed: int)
    ensures |tasks| == |savedTasks| && forall k :: 0 <= k < |tasks| ==> tasks[k] == Normalised(savedTasks[k])
    ensures forall k :: 0 <= k < |tasks| ==> AsSaved(savedTasks[k], tasks[k])
    ensures succeeded == Sum(IsSucceeded, tasks) && failed == Sum(IsFailed, tasks)
  {
    tasks, succeeded, failed := [], 0, 0;
    var i := 0;
    while i < |savedTasks|
      invariant 0 <= i <= |savedTasks| && |tasks| == i
      invariant forall k :: 0 <= k < i ==> tasks[k] == Normalised(savedTasks[k])
      invariant succeeded == Sum(IsSucceeded, tasks) && failed == Sum(IsFailed, tasks)
    {
      var task := savedTasks[i];
      if task.status == Succeeded {
        succeeded := succeeded + 1;
      } else if task.status == Failed && !ShouldRetry(task) {
        failed := failed + 1;
      } else {
        task := task.(status := Pending);
      }
      SumSnoc(tasks, task);
      tasks := tasks + [task];
      i := i + 1;
    }
  }

  lemma {:induction false} AddedSums(tasks: seq<Task>, added: seq<Task>)
    requires forall t :: t in added ==> Fresh(t)
    ensures Sum(IsSucceeded, tasks + added) == Sum(IsSucceeded, tasks)
    ensures Sum(IsFailed, tasks + added) == Sum(IsFailed, tasks)
    decreases |added|
  {
    if added == [] {
      assert tasks + added == tasks;
    } else {
      var n := |added| - 1;
      assert added[n] in added;
      AddedSums(tasks, added[..n]);
      assert tasks + added == (tasks + added[..n]) + [added[n]];
      SumSnoc(tasks + added[..n], added[n]);
    }
  }

  lemma AddedBooks(savedTasks: seq<Task>, tasks: seq<Task>, added: seq<Task>, succeeded: int, failed: int)
    requires UniqueIds(savedTasks + added) && forall t :: t in added ==> Fresh(t)
    requires |tasks| == |savedTasks| && forall k :: 0 <= k < |tasks| ==> tasks[k] == Normalised(savedTasks[k])
    requires succeeded == Sum(IsSucceeded, tasks) && failed == Sum(IsFailed, tasks)
    ensures Books(tasks + added, tasks + added, [], {}, succeeded, failed, 0)
    ensures forall i :: 0 <= i < |tasks + added| ==> (tasks + added)[i] == Normalised((savedTasks + added)[i])
  {
    AddedSums(tasks, added);
    hide Sum;
    var all := tasks + added;
    forall i | 0 <= i < |all|
      ensures all[i] == Normalised((savedTasks + added)[i]) && all[i].status != Running
      ensures all[i].taskId == (savedTasks + added)[i].taskId
    {
      if i >= |tasks| { assert all[i] in added; }
    }
    IdleBooks(all, succeeded, failed);
  }

  class Scheduler {
    var allTasks: seq<Task>
    var runningTasks: seq<RunningTask>
    var heldLocks: set<string>
    var nextSlotId: int
    var tasksSucceeded: int
    var tasksFailed: int
    var schedulingHalted: bool
    const cellCount: nat
    const stopOnFailure: bool
    const retryBackoffMs: nat
    // the tasks at the start of this run, and how often a worker was spawned since
    ghost var base: seq<Task>
    ghost var dispatches: int

    ghost predicate Valid()
      reads this
    {
      && Books(base, allTasks, runningTasks, heldLocks, tasksSucceeded, tasksFailed, dispatches)
      && |runningTasks| <= cellCount && cellCount > 0 && (schedulingHalted ==> stopOnFailure)
    }

    /** The settings and the task list as a board on which steps are made. */
    function Settings(): Config {
      Config(cellCount, stopOnFailure, retryBackoffMs)
    }

    function Tasks(): Board
      reads this
    {
      Board(allTasks, schedulingHalted)
    }

    /** A fresh start: one task per workflow file. */
    constructor Start(tasks: seq<Task>, cellCount: nat, stopOnFailure: bool, retryBackoffMs: nat)
      requires cellCount > 0 && UniqueIds(tasks) && forall t :: t in tasks ==> Fresh(t)
      ensures Valid() && base == tasks && allTasks == tasks && dispatches == 0
      ensures runningTasks == [] && heldLocks == {}
      ensures this.cellCount == cellCount && this.stopOnFailure == stopOnFailure && !schedulingHalted
    {
      allTasks, base := tasks, tasks;
      runningTasks, heldLocks, nextSlotId := [], {}, 1;
      tasksSucceeded, tasksFailed, schedulingHalted := 0, 0, false;
      this.cellCount, this.stopOnFailure, this.retryBackoffMs := cellCount, stopOnFailure, retryBackoffMs;
      dispatches := 0;
      FreshBooks(tasks);
    }

    /** Resuming from a saved task list, to which further workflow files may be added. */
    constructor Resume(savedTasks: seq<Task>, added: seq<Task>, cellCount: nat, stopOnFailure: bool,
        retryBackoffMs: nat)
      requires cellCount > 0 && UniqueIds(savedTasks + added) && forall t :: t in added ==> Fresh(t)
      ensures Valid() && dispatches == 0 && allTasks == base
      ensures |base| == |savedTasks| + |added|
      ensures forall i :: 0 <= i < |base| ==> base[i] == Normalised((savedTasks + added)[i])
      ensures forall i :: 0 <= i < |base| ==> AsSaved((savedTasks + added)[i], base[i])
      ensures this.cellCount == cellCount && this.stopOnFailure == stopOnFailure && !schedulingHalted
    {
      var tasks, succeeded, failed := LoadTasks(savedTasks);
      AddedBooks(savedTasks, tasks, added, succeeded, failed);
      allTasks, base := tasks + added, tasks + added;
      runningTasks, heldLocks, nextSlotId := [], {}, 1;
      tasksSucceeded, tasksFailed, schedulingHalted := succeeded, failed, false;
      this.cellCount, this.stopOnFailure, this.retryBackoffMs := cellCount, stopOnFailure, retryBackoffMs;
      dispatches := 0;
    }

    method HaltPendingTasksAfterFailure()
      modifies this`allTasks, this`tasksFailed, this`schedulingHalted
      ensures stopOnFailure && !old(schedulingHalted) ==>
        schedulingHalted && allTasks == SkippedTo(old(allTasks), |old(allTasks)|)
      ensures stopOnFailure && !old(schedulingHalted) ==>
          tasksFailed == old(tasksFailed) + Sum(IsPending, old(allTasks))
      ensures !(stopOnFailure && !old(schedulingHalted)) ==>
        schedulingHalted == old(schedulingHalted) && allTasks == old(allTasks) && tasksFailed == old(tasksFailed)
    {
      if !stopOnFailure || schedulingHalted { return; }
      schedulingHalted := true;
      ghost var tasks := allTasks;
      var i := 0;
      while i < |allTasks|
        invariant 0 <= i <= |allTasks| == |tasks|
        invariant allTasks == SkippedTo(tasks, i)
        invariant tasksFailed == old(tasksFailed) + Sum(IsPending, tasks[..i])
        invariant schedulingHalted
      {
        assert tasks[..i + 1][..i] == tasks[..i];
        if allTasks[i].status == Pending {
          allTasks := allTasks[i := allTasks[i].(status := Failed, lastExitCode := -2, nextRunAtMs := 0)];
          tasksFailed := tasksFailed + 1;
        }
        i := i + 1;
      }
      assert tasks[..i] == tasks;
    }

    /** Any policy: some runnable task, or -1 when there is none. */
    method SelectRunnableTaskIndex(nowMs: int) returns (index: int)
      ensures index >= 0 ==> index < |allTasks| && IsTaskRunnable(allTasks[index], heldLocks, nowMs)
      ensures index < 0 ==> NoneRunnable(allTasks, heldLocks, nowMs)
    {
      if i: nat :| i < |allTasks| && IsTaskRunnable(allTasks[i], heldLocks, nowMs) {
        index := i;
      } else {
        index := -1;
      }
    }

    /** Spawns a worker for a runnable task; started tells whether the process came up. */
    method Dispatch(index: nat, nowMs: int, started: bool, clockMs: int)
      requires Valid() && |runningTasks| < cellCount && !schedulingHalted
      requires index < |allTasks| && IsTaskRunnable(allTasks[index], heldLocks, nowMs)
      modifies this
      ensures Valid() && base == old(base) && dispatches == old(dispatches) + 1
      ensures Enabled(Settings(), old(Tasks()), Spawn(index, nowMs, started, clockMs))
      ensures Tasks() == After(Settings(), old(Tasks()), Spawn(index, nowMs, started, clockMs))
      ensures FinalKept(old(allTasks), allTasks)
      ensures started ==> heldLocks == old(heldLocks) + Locks(old(allTasks)[index])
      ensures started ==>
                runningTasks == old(runningTasks) + [RunningTask(old(nextSlotId), old(allTasks)[index].taskId)]
      ensures !started ==> heldLocks == old(heldLocks) && runningTasks == old(runningTasks)
      ensures var t := old(allTasks)[index];
              allTasks[index] ==
                if started then
                  t.(attemptsMade := t.attemptsMade + 1, status := Running, lastExitCode := 0, nextRunAtMs := 0)
                else if t.attemptsMade < t.maxRetries then
                  t.(attemptsMade := t.attemptsMade + 1, status := Pending, lastExitCode := -1,
                     nextRunAtMs := clockMs + retryBackoffMs * (t.attemptsMade + 1))
                else t.(attemptsMade := t.attemptsMade + 1, status := Failed, lastExitCode := -1, nextRunAtMs := 0)
    {
      hide Books, Sum, WithinBudget, SkippedTo;
      ghost var tasks := allTasks;
      CanSpawn(Settings(), Tasks(), base, runningTasks, heldLocks, tasksSucceeded, tasksFailed, dispatches,
               Spawn(index, nowMs, started, clockMs));
      hide Enabled;
      var task := allTasks[index];
      task := task.(attemptsMade := task.attemptsMade + 1, status := Running, lastExitCode := 0, nextRunAtMs := 0);
      allTasks := allTasks[index := task];
      dispatches := dispatches + 1;
      if !started {
        task := task.(status := Failed, lastExitCode := -1);
        if ShouldRetry(task) {
          task := task.(status := Pending, nextRunAtMs := clockMs + retryBackoffMs * task.attemptsMade);
          allTasks := allTasks[index := task];
          assert allTasks == tasks[index := task];
          BooksNotStarted(base, tasks, runningTasks, heldLocks, tasksSucceeded, tasksFailed, dispatches - 1, index,
              task);
        } else {
          allTasks := allTasks[index := task];
          assert allTasks == tasks[index := task];
          BooksNotStarted(base, tasks, runningTasks, heldLocks, tasksSucceeded, tasksFailed, dispatches - 1, index,
              task);
          tasksFailed := tasksFailed + 1;
          HaltBooks();
        }
      } else {
        BooksSpawned(base, tasks, runningTasks, heldLocks, tasksSucceeded, tasksFailed, dispatches - 1, index,
            nextSlotId);
        heldLocks := heldLocks + Locks(task);
        runningTasks := runningTasks + [RunningTask(nextSlotId, task.taskId)];
        nextSlotId := nextSlotId + 1;
      }
    }

    /** Halting in a consistent state. */
    method HaltBooks()
      requires Valid()
      modifies this`allTasks, this`tasksFailed, this`schedulingHalted
      ensures Valid() && FinalKept(old(allTasks), allTasks)
      ensures schedulingHalted ==> old(schedulingHalted) || (stopOnFailure && forall t :: t in allTasks ==>
          t.status != Pending)
      ensures stopOnFailure ==> schedulingHalted
      ensures allTasks == if stopOnFailure &&
          !old(schedulingHalted) then SkippedTo(old(allTasks), |old(allTasks)|) else old(allTasks)
    {
      hide Books, Sum, WithinBudget;
      ghost var tasks := allTasks;
      BooksSkipped(base, tasks, runningTasks, heldLocks, tasksSucceeded, tasksFailed, dispatches, |tasks|);
      assert tasks[..|tasks|] == tasks;
      HaltPendingTasksAfterFailure();
    }

    /** Spawns workers while a cell is free and a task runnable. With no worker running, a task that is due is
        spawned. */
    method StartRunnableTasks(nowMs: int) returns (ghost steps: seq<Step>)
      requires Valid()
      modifies this
      ensures Valid() && base == old(base) && dispatches == old(dispatches) + |steps|
      ensures Legal(Settings(), old(Tasks()), steps) && Tasks() == Exec(Settings(), old(Tasks()), steps)
      ensures FinalKept(old(allTasks), allTasks)
      ensures old(schedulingHalted) ==> steps == []
      ensures steps == [] ==> runningTasks == old(runningTasks)
      ensures NothingToStart(nowMs)
      ensures steps == [] && !schedulingHalted && runningTasks == [] ==> NoneDue(allTasks, nowMs)
    {
      steps := [];
      assert Exec(Settings(), Tasks(), []) == Tasks();
      if schedulingHalted { return; }
      WorkBound(allTasks);
      hide Enabled, After, Books, Work;
      while |runningTasks| < cellCount
        invariant Valid() && base == old(base) && dispatches == old(dispatches) + |steps|
        invariant Legal(Settings(), old(Tasks()), steps) && Tasks() == Exec(Settings(), old(Tasks()), steps)
        invariant FinalKept(old(allTasks), allTasks)
        invariant steps == [] ==> runningTasks == old(runningTasks)
        invariant Work(allTasks) >= 0
        invariant schedulingHalted ==> !Waiting(Tasks())
        decreases Work(allTasks)
      {
        var runnableIndex := SelectRunnableTaskIndex(nowMs);
        if runnableIndex < 0 { break; }
        assert allTasks[runnableIndex].status == Pending;
        assert !schedulingHalted by { assert Waiting(Tasks()); }
        var started: bool := *;
        var clockMs: int := *;
        ghost var before := Tasks();
        ghost var step := Spawn(runnableIndex, nowMs, started, clockMs);
        Dispatch(runnableIndex, nowMs, started, clockMs);
        StepFalls(Settings(), before, step);
        WorkBound(allTasks);
        if schedulingHalted { HaltClears(Settings(), before, step); }
        LegalSnoc(Settings(), old(Tasks()), steps, step);
        steps := steps + [step];
      }
      if runningTasks == [] && !schedulingHalted {
        NoneHeld(base, allTasks, heldLocks, tasksSucceeded, tasksFailed, dispatches, nowMs);
      }
    }

    method FindTaskIndexById(taskId: int) returns (index: int)
      ensures index >= 0 ==> index < |allTasks| && allTasks[index].taskId == taskId
      ensures index < 0 ==> forall i :: 0 <= i < |allTasks| ==> allTasks[i].taskId != taskId
    {
      var i := 0;
      while i < |allTasks|
        invariant 0 <= i <= |allTasks|
        invariant forall k :: 0 <= k < i ==> allTasks[k].taskId != taskId
      {
        if allTasks[i].taskId == taskId { return i; }
        i := i + 1;
      }
      index := -1;
    }

    /** Books the exit of the worker in slot k. */
    method Complete(k: nat, success: bool, exitCode: int, clockMs: int) returns (ghost i: nat)
      requires Valid() && k < |runningTasks|
      modifies this
      ensures Valid() && base == old(base) && dispatches == old(dispatches)
      ensures FinalKept(old(allTasks), allTasks)
      ensures runningTasks == old(runningTasks)[..k] + old(runningTasks)[k + 1..]
      ensures success ==> tasksSucceeded == old(tasksSucceeded) + 1 && tasksFailed == old(tasksFailed)
      ensures !success ==> tasksSucceeded == old(tasksSucceeded)
      ensures old(schedulingHalted) ==> schedulingHalted && PendingKept(old(allTasks), allTasks)
      ensures i < |old(allTasks)| && old(allTasks)[i].taskId == old(runningTasks)[k].taskId
      ensures Enabled(Settings(), old(Tasks()), Exit(i, success, exitCode, clockMs))
      ensures Tasks() == After(Settings(), old(Tasks()), Exit(i, success, exitCode, clockMs))
      ensures var t := old(allTasks)[i];
              allTasks[i] ==
                if success then t.(status := Succeeded, lastExitCode := exitCode)
                else if t.attemptsMade <= t.maxRetries then
                  t.(status := Pending, lastExitCode := exitCode,
                     nextRunAtMs := clockMs + retryBackoffMs * t.attemptsMade)
                else t.(status := Failed, lastExitCode := exitCode)
      ensures old(allTasks)[i].attemptsMade <= old(allTasks)[i].maxRetries ==> tasksFailed == old(tasksFailed)
      ensures heldLocks == old(heldLocks) - Locks(old(allTasks)[i])
    {
      var taskIndex := FindTaskIndexById(runningTasks[k].taskId);
      SlotTask(allTasks, runningTasks, k, taskIndex);
      i := taskIndex;
      hide Books, Sum, FinalKept, PendingKept, SkippedTo;
      if success {
        CompleteSuccess(k, taskIndex, exitCode);
      } else {
        CompleteFailure(k, taskIndex, exitCode, clockMs);
      }
    }

    method CompleteSuccess(k: nat, i: nat, exitCode: int)
      requires Valid() && k < |runningTasks| && i < |allTasks|
      requires allTasks[i].status == Running && allTasks[i].taskId == runningTasks[k].taskId
      modifies this
      ensures Valid() && base == old(base) && dispatches == old(dispatches)
      ensures FinalKept(old(allTasks), allTasks) && PendingKept(old(allTasks), allTasks)
      ensures runningTasks == old(runningTasks)[..k] + old(runningTasks)[k + 1..]
      ensures tasksSucceeded == old(tasksSucceeded) + 1 && tasksFailed == old(tasksFailed)
      ensures schedulingHalted == old(schedulingHalted)
      ensures allTasks == old(allTasks)[i := old(allTasks)[i].(status := Succeeded, lastExitCode := exitCode)]
      ensures heldLocks == old(heldLocks) - Locks(old(allTasks)[i])
    {
      hide Books, Sum, FinalKept, PendingKept;
      var task := allTasks[i].(status := Succeeded, lastExitCode := exitCode);
      BooksFinished(base, allTasks, runningTasks, heldLocks, tasksSucceeded, tasksFailed, dispatches, i, task, k,
          exitCode);
      KeptUpdate(allTasks, i, task);
      allTasks := allTasks[i := task];
      tasksSucceeded := tasksSucceeded + 1;
      heldLocks := heldLocks - Locks(task);
      runningTasks := runningTasks[..k] + runningTasks[k + 1..];
    }

    method CompleteFailure(k: nat, i: nat, exitCode: int, clockMs: int)
      requires Valid() && k < |runningTasks| && i < |allTasks|
      requires allTasks[i].status == Running && allTasks[i].taskId == runningTasks[k].taskId
      modifies this
      ensures Valid() && base == old(base) && dispatches == old(dispatches)
      ensures FinalKept(old(allTasks), allTasks)
      ensures runningTasks == old(runningTasks)[..k] + old(runningTasks)[k + 1..]
      ensures tasksSucceeded == old(tasksSucceeded)
      ensures old(schedulingHalted) ==> schedulingHalted && PendingKept(old(allTasks), allTasks)
      ensures var t := AfterFailure(old(allTasks)[i], exitCode, clockMs, retryBackoffMs);
              allTasks == Updated(old(allTasks), i, t, stopOnFailure && !old(schedulingHalted)) &&
              schedulingHalted == (old(schedulingHalted) || (stopOnFailure && t.status == Failed))
      ensures var t := old(allTasks)[i];
              allTasks[i] ==
                if t.attemptsMade <= t.maxRetries then
                  t.(status := Pending, lastExitCode := exitCode,
                     nextRunAtMs := clockMs + retryBackoffMs * t.attemptsMade)
                else t.(status := Failed, lastExitCode := exitCode)
      ensures old(allTasks)[i].attemptsMade <= old(allTasks)[i].maxRetries ==> tasksFailed == old(tasksFailed)
      ensures heldLocks == old(heldLocks) - Locks(old(allTasks)[i])
    {
      hide Books, Sum, FinalKept, PendingKept, SkippedTo;
      var task := allTasks[i].(status := Failed, lastExitCode := exitCode);
      var retry := ShouldRetry(task);
      if retry {
        task := task.(status := Pending, nextRunAtMs := clockMs + retryBackoffMs * task.attemptsMade);
      }
      BooksFinished(base, allTasks, runningTasks, heldLocks, tasksSucceeded, tasksFailed, dispatches, i, task, k,
          exitCode);
      KeptUpdate(allTasks, i, task);
      allTasks := allTasks[i := task];
      if !retry {
        tasksFailed := tasksFailed + 1;
        BooksSkipped(base, allTasks, runningTasks[..k] + runningTasks[k + 1..], heldLocks - Locks(task),
            tasksSucceeded, tasksFailed, dispatches, |allTasks|);
        assert allTasks[..|allTasks|] == allTasks;
        HaltPendingTasksAfterFailure();
      }
      heldLocks := heldLocks - Locks(task);
      runningTasks := runningTasks[..k] + runningTasks[k + 1..];
    }

    /** The completion loop: visits the slots from the last to the first and books the exits that happened. */
    method CompleteExitedWorkers(exits: map<int, Exited>) returns (ghost steps: seq<Step>)
      requires Valid()
      modifies this
      ensures Valid() && base == old(base) && dispatches == old(dispatches)
      ensures Legal(Settings(), old(Tasks()), steps) && Tasks() == Exec(Settings(), old(Tasks()), steps)
      ensures |runningTasks| == |old(runningTasks)| - |steps|
      ensures runningTasks == Still(old(runningTasks), exits)
      ensures forall r :: r in old(runningTasks) && r.taskId in exits ==> Booked(steps, base, r.taskId, exits)
      ensures forall s :: s in steps ==> s.i < |base| && ExitOf(s, base, base[s.i].taskId, exits)
      ensures steps == [] ==> runningTasks == old(runningTasks)
      ensures FinalKept(old(allTasks), allTasks)
    {
      steps := [];
      assert Exec(Settings(), Tasks(), []) == Tasks();
      ghost var all := runningTasks;
      PassStarts(all, base, exits);
      hide *;
      var index := |runningTasks| - 1;
      while index >= 0
        invariant -1 <= index < |runningTasks|
        invariant Passed(all, runningTasks, steps, base, exits, index + 1)
        invariant Valid() && base == old(base) && dispatches == old(dispatches)
        invariant Legal(Settings(), old(Tasks()), steps) && Tasks() == Exec(Settings(), old(Tasks()), steps)
        invariant FinalKept(old(allTasks), allTasks)
      {
        var r := runningTasks[index];
        PassAt(all, runningTasks, steps, base, exits, index);
        if r.taskId in exits {
          ghost var before, slots := allTasks, runningTasks;
          var e := exits[r.taskId];
          ghost var i := CompleteAt(index, e);
          ghost var step := Exit(i, e.success, e.exitCode, e.clockMs);
          LegalSnoc(Settings(), old(Tasks()), steps, step);
          PassExit(all, slots, runningTasks, steps, step, base, exits, index);
          steps := steps + [step];
          KeptTwice(old(allTasks), before, allTasks);
        }
        index := index - 1;
      }
      PassEnds(all, runningTasks, steps, base, exits);
    }

    /** Books the exit in slot k, naming its task by what it was at the start of the run. */
    method CompleteAt(k: nat, e: Exited) returns (ghost i: nat)
      requires Valid() && k < |runningTasks|
      modifies this
      ensures Valid() && base == old(base) && dispatches == old(dispatches)
      ensures FinalKept(old(allTasks), allTasks)
      ensures runningTasks == old(runningTasks)[..k] + old(runningTasks)[k + 1..]
      ensures Enabled(Settings(), old(Tasks()), Exit(i, e.success, e.exitCode, e.clockMs))
      ensures Tasks() == After(Settings(), old(Tasks()), Exit(i, e.success, e.exitCode, e.clockMs))
      ensures i < |base| && base[i].taskId == old(runningTasks)[k].taskId
    {
      SameIds(base, allTasks, runningTasks, heldLocks, tasksSucceeded, tasksFailed, dispatches);
      hide *;
      i := Complete(k, e.success, e.exitCode, e.clockMs);
    }

    /** Scheduling is halted, or every cell is busy, or no task can run. */
    ghost predicate NothingToStart(nowMs: int)
      reads this
    {
      schedulingHalted || |runningTasks| == cellCount || NoneRunnable(allTasks, heldLocks, nowMs)
    }

    predicate HasPendingWork()
      reads this
    {
      exists i :: 0 <= i < |allTasks| && (allTasks[i].status == Pending || allTasks[i].status == Running)
    }

    /** A round of the main loop. It makes a step if a worker exits in it, or if none runs and a pending task is due. */
    method Round(nowMs: int, exits: map<int, Exited>) returns (ghost steps: seq<Step>)
      requires Valid()
      modifies this
      ensures Valid() && base == old(base) && dispatches >= old(dispatches)
      ensures Legal(Settings(), old(Tasks()), steps) && Tasks() == Exec(Settings(), old(Tasks()), steps)
      ensures FinalKept(old(allTasks), allTasks)
      ensures steps == [] ==> Tasks() == old(Tasks()) && runningTasks == old(runningTasks)
      ensures steps == [] && !schedulingHalted && runningTasks == [] ==> NoneDue(allTasks, nowMs)
      ensures NothingToStart(nowMs)
      ensures forall r :: r in old(runningTasks) && r.taskId in exits ==> Booked(steps, base, r.taskId, exits)
      ensures dispatches - old(dispatches) <= |steps|
    {
      hide Books, Sum, FinalKept, Enabled, After, NoneRunnable, NoneDue, Booked, Still, ExitOf, Legal;
      ghost var ends := CompleteExitedWorkers(exits);
      ghost var mid := allTasks;
      ghost var spawns := StartRunnableTasks(nowMs);
      KeptTwice(old(allTasks), mid, allTasks);
      ExecAppend(Settings(), old(Tasks()), ends, spawns);
      steps := ends + spawns;
      forall r | r in old(runningTasks) && r.taskId in exits
        ensures Booked(steps, base, r.taskId, exits)
      {
        BookedJoin(ends, spawns, base, r.taskId, exits);
      }
    }

    /** When no work is left every task is final and counted. */
    lemma NoneLeft()
      requires Valid()
      ensures cellCount > 0 && (!HasPendingWork() && runningTasks == [] <==> AllDone(Tasks()))
      ensures AllDone(Tasks()) ==>
                tasksSucceeded + tasksFailed == |allTasks| && runningTasks == [] &&
                (tasksFailed == 0 <==> forall t :: t in allTasks ==> t.status == Succeeded)
    {
      NoWork(base, allTasks, schedulingHalted, runningTasks, heldLocks, tasksSucceeded, tasksFailed, dispatches);
      if AllDone(Tasks()) {
        AllFinal(allTasks);
      }
    }

    /** The main loop with what its first rounds find. It exits when every task is final; the steps it
        makes are a run, whose length, end and failure to end the laws of runs bound. */
    method Run(rounds: seq<Observed>) returns (exited: bool, ghost steps: seq<Step>)
      requires Valid()
      modifies this
      ensures Valid() && base == old(base) && dispatches >= old(dispatches)
      ensures Legal(Settings(), old(Tasks()), steps) && Tasks() == Exec(Settings(), old(Tasks()), steps)
      ensures |steps| + Work(allTasks) <= Work(old(allTasks))
      ensures FinalKept(old(allTasks), allTasks)
      ensures exited <==> AllDone(Tasks())
      ensures !exited && rounds != [] ==> NothingToStart(rounds[|rounds| - 1].nowMs)
      ensures exited ==> tasksSucceeded + tasksFailed == |allTasks| && runningTasks == []
      ensures exited ==> (tasksFailed == 0 <==> forall t :: t in allTasks ==> t.status == Succeeded)
      ensures forall i :: 0 <= i < |allTasks| && allTasks[i].status == Failed && old(allTasks)[i].status != Failed ==>
                allTasks[i].attemptsMade > allTasks[i].maxRetries || (stopOnFailure && allTasks[i].lastExitCode == -2)
      ensures exited ==> !Stuck(old(Tasks())) && !RetriesAfterHalt(Settings(), old(Tasks()), steps)
      ensures Quiet(Settings(), Tasks()) ==>
                (exited <==> !Stuck(old(Tasks())) && !RetriesAfterHalt(Settings(), old(Tasks()), steps))
    {
      hide Valid, Legal, Exec, Enabled, After, Work, RetriesAfterHalt, Quiet, AllDone, FinalKept, Stuck, NothingToStart;
      hide HasPendingWork;
      var nowMs: int := *;
      steps := StartRunnableTasks(nowMs);
      var k := 0;
      while (HasPendingWork() || runningTasks != []) && k < |rounds|
        invariant Valid() && base == old(base) && dispatches >= old(dispatches) && 0 <= k <= |rounds|
        invariant Legal(Settings(), old(Tasks()), steps) && Tasks() == Exec(Settings(), old(Tasks()), steps)
        invariant FinalKept(old(allTasks), allTasks)
        invariant k > 0 ==> NothingToStart(rounds[k - 1].nowMs)
      {
        hide *;
        ghost var before := allTasks;
        ghost var more := Round(rounds[k].nowMs, rounds[k].exits);
        KeptTwice(old(allTasks), before, allTasks);
        ExecAppend(Settings(), old(Tasks()), steps, more);
        steps := steps + more;
        k := k + 1;
      }
      exited := !HasPendingWork() && runningTasks == [];
      NoneLeft();
      RunLaws(Settings(), old(Tasks()), Tasks(), steps);
    }
  }

  const FIRST := Task(1, [], 0, 0, 0, 0, Pending)
  const SECOND := Task(2, [], 0, 1, 0, 0, Pending)

  /** With stop-on-failure a run can get stuck: the second worker fails with an attempt left after the first has
      failed for good. */
  method StuckRun() returns (s: Scheduler)
    ensures fresh(s) && s.Valid() && s.stopOnFailure && Stuck(s.Tasks())
  {
    s := new Scheduler.Start([FIRST, SECOND], 2, true, 0);
    TwoSpawns();
    TwoFailures();
    hide Scheduler.Valid, Enabled, After, Stuck, SkippedTo;
    s.Dispatch(0, 0, true, 0);
    s.Dispatch(1, 0, true, 0);
    ghost var i := s.Complete(0, false, 1, 0);
    ghost var j := s.Complete(0, false, 1, 0);
  }

  lemma TwoSpawns()
    ensures var c := Config(2, true, 0);
            var b := Board([Spawned(FIRST), SECOND], false);
            After(c, Board([FIRST, SECOND], false), Spawn(0, 0, true, 0)) == b &&
            After(c, b, Spawn(1, 0, true, 0)) == Board([Spawned(FIRST), Spawned(SECOND)], false)
  {
    var c := Config(2, true, 0);
    var b0, b := Board([FIRST, SECOND], false), Board([Spawned(FIRST), SECOND], false);
    assert b0.tasks[..1] == [FIRST] && b.tasks[..1] == [Spawned(FIRST)] && [FIRST][..0] == [];
    assert Sum(IsBusy, []) == 0 && Sum(IsBusy, [FIRST]) == 0 && Sum(IsBusy, [Spawned(FIRST)]) == 1;
    assert Enabled(c, b0, Spawn(0, 0, true, 0)) && Enabled(c, b, Spawn(1, 0, true, 0));
    assert b0.tasks[0 := Spawned(FIRST)] == b.tasks;
    assert b.tasks[1 := Spawned(SECOND)] == [Spawned(FIRST), Spawned(SECOND)];
  }

  lemma TwoFailures()
    ensures var c := Config(2, true, 0);
            var b := Board([Spawned(FIRST), Spawned(SECOND)], false);
            var b' := Board([Spawned(FIRST).(status := Failed, lastExitCode := 1), Spawned(SECOND)], true);
            After(c, b, Exit(0, false, 1, 0)) == b' && Stuck(After(c, b', Exit(1, false, 1, 0)))
  {
    var c := Config(2, true, 0);
    var b := Board([Spawned(FIRST), Spawned(SECOND)], false);
    var b' := Board([Spawned(FIRST).(status := Failed, lastExitCode := 1), Spawned(SECOND)], true);
    var t := Spawned(FIRST).(status := Failed, lastExitCode := 1);
    assert SkippedTo(b.tasks[0 := t], 2) == b'.tasks;
    StuckStep(c, b', Exit(1, false, 1, 0));
  }

  /** The slots from n on were visited: their exits are booked and the others are as they were. */
  ghost predicate Passed(all: seq<RunningTask>, running: seq<RunningTask>, steps: seq<Step>, base: seq<Task>,
                         exits: map<int, Exited>, n: nat) {
    && n <= |all| && |running| == |all| - |steps| && running == all[..n] + Still(all[n..], exits)
    && (forall j :: n <= j < |all| && all[j].taskId in exits ==> Booked(steps, base, all[j].taskId, exits))
    && (forall s :: s in steps ==> s.i < |base| && ExitOf(s, base, base[s.i].taskId, exits))
    && (steps == [] ==> running == all)
  }

  lemma PassStarts(all: seq<RunningTask>, base: seq<Task>, exits: map<int, Exited>)
    ensures Passed(all, all, [], base, exits, |all|)
  {
  }

  lemma StillNext(running: seq<RunningTask>, k: nat, exits: map<int, Exited>)
    requires k < |running|
    ensures Still(running[k..], exits) ==
      (if running[k].taskId in exits then [] else [running[k]]) + Still(running[k + 1..], exits)
    ensures running[..k + 1] == running[..k] + [running[k]]
  {
    assert running[k..][1..] == running[k + 1..];
  }

  lemma PassAt(all: seq<RunningTask>, running: seq<RunningTask>, steps: seq<Step>, base: seq<Task>,
               exits: map<int, Exited>, k: nat)
    requires Passed(all, running, steps, base, exits, k + 1)
    ensures k < |running| && k < |all| && running[k] == all[k]
    ensures running[k].taskId !in exits ==> Passed(all, running, steps, base, exits, k)
  {
    hide Booked, ExitOf, Still;
    StillNext(all, k, exits);
  }

  lemma PassExit(all: seq<RunningTask>, running: seq<RunningTask>, running': seq<RunningTask>, steps: seq<Step>,
                 s: Step, base: seq<Task>, exits: map<int, Exited>, k: nat)
    requires Passed(all, running, steps, base, exits, k + 1) && k < |running| && running[k].taskId in exits
    requires running' == running[..k] + running[k + 1..]
    requires s.Exit? && s.i < |base| && base[s.i].taskId == running[k].taskId
    requires exits[running[k].taskId] == Exited(s.success, s.exitCode, s.clockMs)
    ensures Passed(all, running', steps + [s], base, exits, k)
  {
    assert ExitOf(s, base, base[s.i].taskId, exits);
    hide Booked, Still, ExitOf;
    StillNext(all, k, exits);
    assert running' == all[..k] + Still(all[k + 1..], exits);
    forall j | k <= j < |all| && all[j].taskId in exits
      ensures Booked(steps + [s], base, all[j].taskId, exits)
    {
      BookedMore(steps, s, base, all[j].taskId, exits);
    }
  }

  lemma PassEnds(all: seq<RunningTask>, running: seq<RunningTask>, steps: seq<Step>, base: seq<Task>,
                 exits: map<int, Exited>)
    requires Passed(all, running, steps, base, exits, 0)
    ensures |running| == |all| - |steps| && running == Still(all, exits) && (steps == [] ==> running == all)
    ensures forall r :: r in all && r.taskId in exits ==> Booked(steps, base, r.taskId, exits)
    ensures forall s :: s in steps ==> s.i < |base| && ExitOf(s, base, base[s.i].taskId, exits)
  {
    hide Booked, ExitOf, Still;
    assert all[0..] == all && all[..0] + Still(all, exits) == Still(all, exits);
  }

  /** A task keeps its number over a run. */
  lemma SameIds(base: seq<Task>, tasks: seq<Task>, running: seq<RunningTask>, held: set<string>,
                succeeded: int, failed: int, dispatches: int)
    requires Books(base, tasks, running, held, succeeded, failed, dispatches)
    ensures |base| == |tasks| && forall i :: 0 <= i < |tasks| ==> tasks[i].taskId == base[i].taskId
  {
    forall i | 0 <= i < |tasks|
      ensures tasks[i].taskId == base[i].taskId
    {
      assert WithinBudget(base[i], tasks[i]);
    }
  }

  lemma KeptTwice(a: seq<Task>, b: seq<Task>, c: seq<Task>)
    ensures FinalKept(a, b) && FinalKept(b, c) ==> FinalKept(a, c)
    ensures PendingKept(a, b) && PendingKept(b, c) ==> PendingKept(a, c)
  {
  }

  lemma {:induction false} AllFinal(tasks: seq<Task>)
    requires forall i :: 0 <= i < |tasks| ==> tasks[i].status == Succeeded || tasks[i].status == Failed
    ensures Sum(IsSucceeded, tasks) + Sum(IsFailed, tasks) == |tasks|
    ensures Sum(IsFailed, tasks) >= 0
    ensures Sum(IsFailed, tasks) == 0 <==> forall t :: t in tasks ==> t.status == Succeeded
  {
    if tasks != [] {
      AllFinal(tasks[..|tasks| - 1]);
      assert tasks == tasks[..|tasks| - 1] + [tasks[|tasks| - 1]];
    }
  }

  // ---------------------------------------------------------------- bounds over runs

  /** A run from fresh tasks spawns at most maxRetries + 1 workers for each task. */
  lemma FreshDispatchBound(s: Scheduler)
    requires s.Valid() && forall t :: t in s.base ==> Fresh(t)
    ensures s.dispatches <= Sum(Allowance, s.base)
    ensures forall i :: 0 <= i < |s.allTasks| ==> s.allTasks[i].attemptsMade <= s.base[i].maxRetries + 1
  {
    var base, tasks := s.base, s.allTasks;
    forall i | 0 <= i < |tasks|
      ensures tasks[i].attemptsMade <= Allowance(tasks[i]) && Allowance(tasks[i]) == Allowance(base[i])
    {
      assert WithinBudget(base[i], tasks[i]) && base[i] in base;
    }
    SumBounds(Attempts, Allowance, tasks);
    SameAllowance(base, tasks);
    assert forall t :: t in base ==> Zero(t) <= Attempts(t);
    SumBounds(Zero, Attempts, base);
    SumOfZero(base);
  }

  lemma {:induction false} SameAllowance(a: seq<Task>, b: seq<Task>)
    requires |a| == |b| && forall i :: 0 <= i < |a| ==> a[i].maxRetries == b[i].maxRetries
    ensures Sum(Allowance, a) == Sum(Allowance, b)
  {
    if a != [] { SameAllowance(a[..|a| - 1], b[..|b| - 1]); }
  }

  /** The tasks at the start of a run and the tasks its last saved state holds. */
  datatype Life = Life(start: seq<Task>, end: seq<Task>)

  /** Runs one after the other, each resumed from the state the previous one left when it ended or
      crashed; new tasks may be added on resume. */
  predicate Resumed(lives: seq<Life>) {
    && (forall r :: 0 <= r < |lives| ==> AllWithinBudget(lives[r].start, lives[r].end))
    && (forall r :: 0 <= r < |lives| - 1 ==> Follows(lives[r].end, lives[r + 1].start))
  }

  predicate Follows(end: seq<Task>, start: seq<Task>) {
    |end| <= |start| && forall i :: 0 <= i < |end| ==> start[i] == Normalised(end[i])
  }

  /** After r resumes a task has made at most maxRetries + 1 + r attempts, or r + 1 more than it had
      when it was first loaded, whichever is larger. */
  lemma {:induction false} AttemptsAfterResumes(lives: seq<Life>, r: nat, i: nat)
    requires Resumed(lives) && r < |lives| && i < |lives[0].start|
    ensures i < |lives[r].end| && lives[r].end[i].maxRetries == lives[0].start[i].maxRetries
    ensures lives[r].end[i].attemptsMade <=
            Max(lives[0].start[i].attemptsMade + 1, lives[0].start[i].maxRetries + 1) + r
  {
    if r == 0 {
      assert AllWithinBudget(lives[0].start, lives[0].end);
      assert WithinBudget(lives[0].start[i], lives[0].end[i]);
    } else {
      AttemptsAfterResumes(lives, r - 1, i);
      assert Follows(lives[r - 1].end, lives[r - 1 + 1].start);
      assert AllWithinBudget(lives[r].start, lives[r].end);
      assert WithinBudget(lives[r].start[i], lives[r].end[i]);
    }
  }

  lemma KeptUpdate(tasks: seq<Task>, i: nat, t: Task)
    requires i < |tasks| && tasks[i].status == Running
    ensures FinalKept(tasks, tasks[i := t]) && PendingKept(tasks, tasks[i := t])
    ensures FinalKept(tasks, SkippedTo(tasks[i := t], |tasks|))
  {
  }

  lemma CanSpawn(c: Config, b: Board, base: seq<Task>, running: seq<RunningTask>, held: set<string>,
                 succeeded: int, failed: int, dispatches: int, s: Step)
    requires Books(base, b.tasks, running, held, succeeded, failed, dispatches)
    requires s.Spawn? && s.i < |b.tasks| && IsTaskRunnable(b.tasks[s.i], held, s.nowMs)
    requires |running| < c.cellCount && !b.halted
    ensures Enabled(c, b, s)
  {
  }

  /** With no worker running no lock is held, so a pending task that cannot run is not due yet. */
  lemma NoneHeld(base: seq<Task>, tasks: seq<Task>, held: set<string>,
                 succeeded: int, failed: int, dispatches: int, nowMs: int)
    requires Books(base, tasks, [], held, succeeded, failed, dispatches) && NoneRunnable(tasks, held, nowMs)
    ensures held == {} && NoneDue(tasks, nowMs)
  {
    forall i | 0 <= i < |tasks| ensures tasks[i].status != Running {
      assert !InSlot([], tasks[i].taskId);
      assert !IsRunning(tasks, tasks[i].taskId);
    }
  }

  /** The loop's guard fails exactly when every task is final. */
  lemma NoWork(base: seq<Task>, tasks: seq<Task>, halted: bool, running: seq<RunningTask>, held: set<string>,
               succeeded: int, failed: int, dispatches: int)
    requires Books(base, tasks, running, held, succeeded, failed, dispatches)
    ensures AllDone(Board(tasks, halted)) <==>
            running == [] && forall i :: 0 <= i < |tasks| ==> tasks[i].status != Pending && tasks[i].status != Running
  {
    if running != [] {
      assert InSlot(running, running[0].taskId);
      assert IsRunning(tasks, running[0].taskId);
    }
  }

  /** No pending task's back-off has elapsed. */
  predicate NoneDue(tasks: seq<Task>, nowMs: int) {
    forall i :: 0 <= i < |tasks| && tasks[i].status == Pending ==> tasks[i].nextRunAtMs > nowMs
  }

  predicate NoneRunnable(tasks: seq<Task>, held: set<string>, nowMs: int) {
    forall i :: 0 <= i < |tasks| ==> !IsTaskRunnable(tasks[i], held, nowMs)
  }

  /** A succeeded or failed task is never touched again in the same run. */
  predicate FinalKept(tasks: seq<Task>, tasks': seq<Task>) {
    |tasks'| == |tasks| &&
    forall i :: 0 <= i < |tasks| && tasks[i].status in {Succeeded, Failed} ==> tasks'[i] == tasks[i]
  }

  predicate PendingKept(tasks: seq<Task>, tasks': seq<Task>) {
    |tasks'| == |tasks| && forall i :: 0 <= i < |tasks| && tasks[i].status == Pending ==> tasks'[i] == tasks[i]
  }

  /** The slot's task exists and is the one found by its id, and it is running. */
  lemma SlotTask(tasks: seq<Task>, running: seq<RunningTask>, k: nat, i: int)
    requires UniqueIds(tasks) && SlotsMatch(tasks, running) && k < |running|
    requires i >= 0 ==> i < |tasks| && tasks[i].taskId == running[k].taskId
    requires i < 0 ==> forall j :: 0 <= j < |tasks| ==> tasks[j].taskId != running[k].taskId
    ensures 0 <= i < |tasks| && tasks[i].status == Running
  {
    assert InSlot(running, running[k].taskId);
    var j :| 0 <= j < |tasks| && tasks[j].taskId == running[k].taskId && tasks[j].status == Running;
  }

  lemma SumSnoc(tasks: seq<Task>, t: Task)
    ensures Sum(IsSucceeded, tasks + [t]) == Sum(IsSucceeded, tasks) + IsSucceeded(t)
    ensures Sum(IsFailed, tasks + [t]) == Sum(IsFailed, tasks) + IsFailed(t)
  {
    assert (tasks + [t])[..|tasks|] == tasks;
  }

  lemma FreshBooks(tasks: seq<Task>)
    requires UniqueIds(tasks) && forall t :: t in tasks ==> Fresh(t)
    ensures Books(tasks, tasks, [], {}, 0, 0, 0)
  {
    assert forall t :: t in tasks ==> IsSucceeded(t) <= Zero(t) && Zero(t) <= IsSucceeded(t);
    SumBounds(IsSucceeded, Zero, tasks);
    SumBounds(Zero, IsSucceeded, tasks);
    SumBounds(IsFailed, Zero, tasks);
    SumBounds(Zero, IsFailed, tasks);
    SumOfZero(tasks);
    forall i | 0 <= i < |tasks|
      ensures tasks[i].status == Pending && WithinBudget(tasks[i], tasks[i])
    {
      assert tasks[i] in tasks;
    }
    IdleBooks(tasks, 0, 0);
  }

  lemma IdleBooks(tasks: seq<Task>, succeeded: int, failed: int)
    requires UniqueIds(tasks) && forall i :: 0 <= i < |tasks| ==> tasks[i].status != Running
    requires succeeded == Sum(IsSucceeded, tasks) && failed == Sum(IsFailed, tasks)
    ensures Books(tasks, tasks, [], {}, succeeded, failed, 0)
  {
    NoneBusy(tasks);
  }
}
