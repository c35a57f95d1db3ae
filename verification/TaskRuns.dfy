/** Runs of the orchestrator's task list, as a transition system: a worker is spawned for a task, or exits. The laws
    say how many steps a run can make and in which states it ends. */
module TaskRuns {

  datatype Status = Pending | Running | Succeeded | Failed

  datatype Task = Task(
    taskId: int,
    resourceLocks: seq<string>,
    attemptsMade: int,
    maxRetries: nat,
    nextRunAtMs: int,
    lastExitCode: int,
    status: Status)

  predicate ShouldRetry(t: Task) {
    t.attemptsMade < t.maxRetries + 1
  }

  function Max(a: int, b: int): int { if a >= b then a else b }

  // ---------------------------------------------------------------- sums over the task list

  function Sum(f: Task -> int, tasks: seq<Task>): int {
    if tasks == [] then 0 else Sum(f, tasks[..|tasks| - 1]) + f(tasks[|tasks| - 1])
  }

  function IsSucceeded(t: Task): int { if t.status == Succeeded then 1 else 0 }

  function IsFailed(t: Task): int { if t.status == Failed then 1 else 0 }

  function Attempts(t: Task): int { t.attemptsMade }

  function Allowance(t: Task): int { t.maxRetries + 1 }

  function IsBusy(t: Task): int { if t.status == Running then 1 else 0 }

  /** How many dispatches and exits a task may still go through: two for every attempt it has left, of which a
      pending task always has one, and the exit of a running task. */
  function Remaining(t: Task): int {
    match t.status
    case Pending => 2 * Max(t.maxRetries + 1 - t.attemptsMade, 1)
    case Running => 2 * Max(t.maxRetries + 1 - t.attemptsMade, 0) + 1
    case _ => 0
  }

  function Work(tasks: seq<Task>): int { Sum(Remaining, tasks) }

  lemma {:induction false} SumUpdate(f: Task -> int, tasks: seq<Task>, i: nat, t: Task)
    requires i < |tasks|
    ensures Sum(f, tasks[i := t]) == Sum(f, tasks) - f(tasks[i]) + f(t)
    decreases |tasks|
  {
    var n := |tasks| - 1;
    if i == n {
      assert tasks[i := t][..n] == tasks[..n];
    } else {
      assert tasks[i := t][..n] == tasks[..n][i := t];
      SumUpdate(f, tasks[..n], i, t);
    }
  }

  lemma {:induction false} SumBounds(f: Task -> int, g: Task -> int, tasks: seq<Task>)
    requires forall t :: t in tasks ==> f(t) <= g(t)
    ensures Sum(f, tasks) <= Sum(g, tasks)
  {
    if tasks != [] {
      assert forall t :: t in tasks[..|tasks| - 1] ==> t in tasks;
      SumBounds(f, g, tasks[..|tasks| - 1]);
    }
  }

  function Zero(t: Task): int { 0 }

  lemma {:induction false} SumOfZero(tasks: seq<Task>)
    ensures Sum(Zero, tasks) == 0
  {
    if tasks != [] { SumOfZero(tasks[..|tasks| - 1]); }
  }

  // ---------------------------------------------------------------- what becomes of a task

  predicate Apart(t: Task, u: Task) {
    forall l :: l in t.resourceLocks ==> l !in u.resourceLocks
  }

  /** The task a dispatch makes of a pending one. */
  function Spawned(t: Task): Task {
    t.(attemptsMade := t.attemptsMade + 1, status := Running, lastExitCode := 0, nextRunAtMs := 0)
  }

  /** What a failed attempt leaves: pending again, with a back-off, while a retry is allowed, failed otherwise. */
  function AfterFailure(t: Task, exitCode: int, clockMs: int, backoffMs: nat): Task {
    if ShouldRetry(t) then
      t.(status := Pending, lastExitCode := exitCode, nextRunAtMs := clockMs + backoffMs * t.attemptsMade)
    else t.(status := Failed, lastExitCode := exitCode)
  }

  function AfterExit(t: Task, success: bool, exitCode: int, clockMs: int, backoffMs: nat): Task {
    if success then t.(status := Succeeded, lastExitCode := exitCode) else AfterFailure(t, exitCode, clockMs, backoffMs)
  }

  function Skipped(t: Task): Task {
    if t.status == Pending then t.(status := Failed, lastExitCode := -2, nextRunAtMs := 0) else t
  }

  /** The task list with the pending tasks among the first n marked as skipped. */
  function SkippedTo(tasks: seq<Task>, n: nat): (r: seq<Task>)
    requires n <= |tasks|
    ensures |r| == |tasks|
    ensures forall i :: 0 <= i < |tasks| ==> r[i] == if i < n then Skipped(tasks[i]) else tasks[i]
  {
    seq(|tasks|, i requires 0 <= i < |tasks| => if i < n then Skipped(tasks[i]) else tasks[i])
  }

  function IsPending(t: Task): int { if t.status == Pending then 1 else 0 }

  /** Task i has become t; the first final failure under stop-on-failure fails the pending tasks too. */
  function Updated(tasks: seq<Task>, i: nat, t: Task, halting: bool): seq<Task>
    requires i < |tasks|
  {
    if halting && t.status == Failed then SkippedTo(tasks[i := t], |tasks|) else tasks[i := t]
  }

  /** Nothing pending is left, and halting spends no attempt. */
  lemma {:induction false} SkippedWork(tasks: seq<Task>)
    ensures Work(SkippedTo(tasks, |tasks|)) <= Work(tasks)
  {
    if tasks != [] {
      var n := |tasks| - 1;
      SkippedWork(tasks[..n]);
      assert SkippedTo(tasks, |tasks|)[..n] == SkippedTo(tasks[..n], n);
    }
  }

  lemma {:induction false} WorkBound(tasks: seq<Task>)
    ensures Work(tasks) >= 0
  {
    if tasks != [] { WorkBound(tasks[..|tasks| - 1]); }
  }

  // ---------------------------------------------------------------- the steps of a run

  datatype Config = Config(cellCount: nat, stopOnFailure: bool, retryBackoffMs: nat)

  /** The task list, and whether scheduling is halted. */
  datatype Board = Board(tasks: seq<Task>, halted: bool)

  datatype Step =
    | Spawn(i: nat, nowMs: int, started: bool, clockMs: int)
    | Exit(i: nat, success: bool, exitCode: int, clockMs: int)

  /** No running task holds a lock of task i. */
  predicate Free(tasks: seq<Task>, i: nat)
    requires i < |tasks|
  {
    forall k :: 0 <= k < |tasks| && tasks[k].status == Running ==> Apart(tasks[k], tasks[i])
  }

  predicate Enabled(c: Config, b: Board, s: Step) {
    s.i < |b.tasks| &&
    match s
    case Spawn(i, nowMs, _, _) =>
      !b.halted && b.tasks[i].status == Pending && b.tasks[i].nextRunAtMs <= nowMs && Free(b.tasks, i) &&
      Sum(IsBusy, b.tasks) < c.cellCount
    case Exit(i, _, _, _) => b.tasks[i].status == Running
  }

  /** Task i has become t. */
  function Settled(c: Config, b: Board, i: nat, t: Task): Board
    requires i < |b.tasks|
  {
    Board(Updated(b.tasks, i, t, c.stopOnFailure && !b.halted), b.halted || (c.stopOnFailure && t.status == Failed))
  }

  function After(c: Config, b: Board, s: Step): Board {
    if !Enabled(c, b, s) then b
    else
      match s
      case Spawn(i, _, started, clockMs) =>
        var t := Spawned(b.tasks[i]);
        if started then Board(b.tasks[i := t], b.halted)
        else Settled(c, b, i, AfterFailure(t, -1, clockMs, c.retryBackoffMs))
      case Exit(i, success, exitCode, clockMs) =>
        Settled(c, b, i, AfterExit(b.tasks[i], success, exitCode, clockMs, c.retryBackoffMs))
  }

  function Exec(c: Config, b: Board, steps: seq<Step>): Board {
    if steps == [] then b else After(c, Exec(c, b, steps[..|steps| - 1]), steps[|steps| - 1])
  }

  predicate Legal(c: Config, b: Board, steps: seq<Step>) {
    steps == [] ||
    (Legal(c, b, steps[..|steps| - 1]) && Enabled(c, Exec(c, b, steps[..|steps| - 1]), steps[|steps| - 1]))
  }

  predicate Waiting(b: Board) {
    exists i :: 0 <= i < |b.tasks| && b.tasks[i].status == Pending
  }

  predicate Busy(b: Board) {
    exists i :: 0 <= i < |b.tasks| && b.tasks[i].status == Running
  }

  predicate AllDone(b: Board) { !Waiting(b) && !Busy(b) }

  /** A pending task that is never dispatched. */
  predicate Stuck(b: Board) { b.halted && Waiting(b) }

  /** A worker fails with attempts left although scheduling is halted. */
  predicate RetriesHalted(b: Board, s: Step) {
    s.Exit? && s.i < |b.tasks| && b.halted && !s.success && ShouldRetry(b.tasks[s.i])
  }

  predicate RetriesAfterHalt(c: Config, b: Board, steps: seq<Step>) {
    exists k :: 0 <= k < |steps| && RetriesHalted(Exec(c, b, steps[..k]), steps[k])
  }

  /** Nothing can happen any more, however late it gets. */
  ghost predicate Quiet(c: Config, b: Board) {
    forall s :: !Enabled(c, b, s)
  }

  // ---------------------------------------------------------------- what the steps mean

  /** A worker is spawned exactly for a pending task that is due, shares no lock with a running one and finds a free
      cell, while nothing has halted. */
  lemma SpawnMeaning(c: Config, b: Board, i: nat, nowMs: int, started: bool, clockMs: int)
    ensures Enabled(c, b, Spawn(i, nowMs, started, clockMs)) <==>
      && i < |b.tasks| && !b.halted && b.tasks[i].status == Pending && b.tasks[i].nextRunAtMs <= nowMs
      && |set k | 0 <= k < |b.tasks| && b.tasks[k].status == Running| < c.cellCount
      && forall k, l :: 0 <= k < |b.tasks| && b.tasks[k].status == Running && l in b.tasks[i].resourceLocks ==>
           l !in b.tasks[k].resourceLocks
  {
    BusyCount(b.tasks);
  }

  lemma {:induction false} BusyCount(tasks: seq<Task>)
    ensures Sum(IsBusy, tasks) == |set k | 0 <= k < |tasks| && tasks[k].status == Running|
  {
    if tasks != [] {
      var n := |tasks| - 1;
      BusyCount(tasks[..n]);
      var before := set k | 0 <= k < n && tasks[..n][k].status == Running;
      var all := set k | 0 <= k < |tasks| && tasks[k].status == Running;
      if tasks[n].status == Running {
        assert all == before + {n};
      } else {
        assert all == before;
      }
    }
  }

  /** A started worker costs its task an attempt and clears its last exit code and back-off. */
  lemma StartMeaning(c: Config, b: Board, i: nat, nowMs: int, clockMs: int)
    requires Enabled(c, b, Spawn(i, nowMs, true, clockMs))
    ensures var t, b' := b.tasks[i], After(c, b, Spawn(i, nowMs, true, clockMs));
      && b' == Board(b.tasks[i := t.(attemptsMade := t.attemptsMade + 1, status := Running, lastExitCode := 0,
                                     nextRunAtMs := 0)], b.halted)
  {
  }

  lemma SuccessMeaning(c: Config, b: Board, i: nat, exitCode: int, clockMs: int)
    requires Enabled(c, b, Exit(i, true, exitCode, clockMs))
    ensures After(c, b, Exit(i, true, exitCode, clockMs)) ==
      Board(b.tasks[i := b.tasks[i].(status := Succeeded, lastExitCode := exitCode)], b.halted)
  {
    hide SkippedTo;
  }

  predicate Fails(s: Step) { if s.Exit? then !s.success else !s.started }

  /** After a failed exit or start a task with attempts left is pending again, with a back-off that grows with its
      attempts; a task without is failed. Only the latter can halt. */
  lemma FailureMeaning(c: Config, b: Board, s: Step)
    requires Enabled(c, b, s) && Fails(s)
    ensures var t, b' := b.tasks[s.i], After(c, b, s);
      var made := if s.Spawn? then t.attemptsMade + 1 else t.attemptsMade;
      if made <= t.maxRetries then
        && b'.halted == b.halted && b'.tasks[s.i].status == Pending && b'.tasks[s.i].attemptsMade == made
        && b'.tasks[s.i].nextRunAtMs == s.clockMs + c.retryBackoffMs * made
        && b'.tasks[s.i].lastExitCode == (if s.Exit? then s.exitCode else -1)
        && forall k :: 0 <= k < |b.tasks| && k != s.i ==> b'.tasks[k] == b.tasks[k]
      else
        && b'.halted == (b.halted || c.stopOnFailure) && b'.tasks[s.i].status == Failed
        && b'.tasks[s.i].attemptsMade == made && b'.tasks[s.i].lastExitCode == (if s.Exit? then s.exitCode else -1)
        && (forall k :: 0 <= k < |b.tasks| && k != s.i && (b.halted == b'.halted || b.tasks[k].status != Pending) ==>
              b'.tasks[k] == b.tasks[k])
        && (forall k :: 0 <= k < |b.tasks| && k != s.i && b.halted != b'.halted && b.tasks[k].status == Pending ==>
              b'.tasks[k] == b.tasks[k].(status := Failed, lastExitCode := -2, nextRunAtMs := 0))
  {
  }

  /** The halt at step s skips task i. */
  predicate SkippedBy(c: Config, b: Board, s: Step, i: nat) {
    i < |b.tasks| && s.i != i && b.tasks[i].status == Pending && !b.halted && After(c, b, s).halted
  }

  /** A task that failed in a run has used up its attempts, unless a halt skipped it while it was pending. */
  lemma {:induction false} FailedForGood(c: Config, b: Board, steps: seq<Step>, i: nat)
    requires Legal(c, b, steps) && i < |b.tasks| == |Exec(c, b, steps).tasks|
    requires b.tasks[i].status != Failed && Exec(c, b, steps).tasks[i].status == Failed
    ensures var t := Exec(c, b, steps).tasks[i];
      || t.attemptsMade >= t.maxRetries + 1
      || (t.lastExitCode == -2 && exists k :: 0 <= k < |steps| && SkippedBy(c, Exec(c, b, steps[..k]), steps[k], i))
  {
    hide Legal, Enabled, After, SkippedBy;
    if steps != [] {
      var n := |steps| - 1;
      var mid := Exec(c, b, steps[..n]);
      SameSize(c, b, steps[..n]);
      LegalEnd(c, b, steps);
      if mid.tasks[i].status == Failed {
        FailedForGood(c, b, steps[..n], i);
        StaysFailed(c, mid, steps[n], i);
        if mid.tasks[i].attemptsMade < mid.tasks[i].maxRetries + 1 {
          var k :| 0 <= k < n && SkippedBy(c, Exec(c, b, steps[..n][..k]), steps[..n][k], i);
          assert steps[..n][..k] == steps[..k];
          assert SkippedBy(c, Exec(c, b, steps[..k]), steps[k], i);
        }
      } else {
        FailsNow(c, mid, steps[n], i);
      }
    }
  }

  /** The same for all tasks of a run: only stop-on-failure skips. */
  lemma FailedTasks(c: Config, b: Board, b': Board, steps: seq<Step>)
    requires Legal(c, b, steps) && b' == Exec(c, b, steps)
    ensures |b'.tasks| == |b.tasks|
    ensures forall i :: 0 <= i < |b.tasks| && b'.tasks[i].status == Failed && b.tasks[i].status != Failed ==>
      b'.tasks[i].attemptsMade > b'.tasks[i].maxRetries || (c.stopOnFailure && b'.tasks[i].lastExitCode == -2)
  {
    SameSize(c, b, steps);
    hide Legal, Exec, After, SkippedBy;
    forall i | 0 <= i < |b.tasks| && b'.tasks[i].status == Failed && b.tasks[i].status != Failed
      ensures b'.tasks[i].attemptsMade > b'.tasks[i].maxRetries || (c.stopOnFailure && b'.tasks[i].lastExitCode == -2)
    {
      FailedForGood(c, b, steps, i);
      if b'.tasks[i].attemptsMade <= b'.tasks[i].maxRetries {
        var k :| 0 <= k < |steps| && SkippedBy(c, Exec(c, b, steps[..k]), steps[k], i);
        OnlyThenSkips(c, Exec(c, b, steps[..k]), steps[k], i);
      }
    }
  }

  lemma OnlyThenSkips(c: Config, b: Board, s: Step, i: nat)
    requires SkippedBy(c, b, s, i)
    ensures c.stopOnFailure
  {
    hide Updated;
  }

  lemma LegalEnd(c: Config, b: Board, steps: seq<Step>)
    requires Legal(c, b, steps) && steps != []
    ensures Legal(c, b, steps[..|steps| - 1]) && Enabled(c, Exec(c, b, steps[..|steps| - 1]), steps[|steps| - 1])
  {
  }

  lemma {:induction false} SameSize(c: Config, b: Board, steps: seq<Step>)
    ensures |Exec(c, b, steps).tasks| == |b.tasks|
  {
    if steps != [] {
      SameSize(c, b, steps[..|steps| - 1]);
    }
  }

  lemma StaysFailed(c: Config, b: Board, s: Step, i: nat)
    requires Enabled(c, b, s) && i < |b.tasks| && b.tasks[i].status == Failed
    ensures After(c, b, s).tasks[i] == b.tasks[i]
  {
  }

  lemma FailsNow(c: Config, b: Board, s: Step, i: nat)
    requires Enabled(c, b, s) && i < |b.tasks| && b.tasks[i].status != Failed
    requires After(c, b, s).tasks[i].status == Failed
    ensures var t := After(c, b, s).tasks[i];
      t.attemptsMade >= t.maxRetries + 1 || (t.lastExitCode == -2 && SkippedBy(c, b, s, i))
  {
  }

  /** Until it is spawned again, a pending task keeps its attempts and its back-off, or a halt skips it. */
  lemma {:induction false} PendingKeeps(c: Config, b: Board, steps: seq<Step>, k: nat, i: nat)
    requires Legal(c, b, steps) && k <= |steps| && i < |b.tasks|
    requires |Exec(c, b, steps[..k]).tasks| == |Exec(c, b, steps).tasks| == |b.tasks|
    requires Exec(c, b, steps[..k]).tasks[i].status == Pending
    requires forall j :: k <= j < |steps| ==> !(steps[j].Spawn? && steps[j].i == i)
    ensures var b' := Exec(c, b, steps);
      b'.tasks[i] == Exec(c, b, steps[..k]).tasks[i] || (b'.halted && b'.tasks[i].status == Failed)
  {
    hide Legal, Enabled, After;
    if k == |steps| {
      assert steps[..k] == steps;
    } else {
      var n := |steps| - 1;
      assert steps[..n][..k] == steps[..k];
      LegalEnd(c, b, steps);
      SameSize(c, b, steps[..n]);
      PendingKeeps(c, b, steps[..n], k, i);
      StepKeeps(c, Exec(c, b, steps[..n]), steps[n], i);
    }
  }

  lemma StepKeeps(c: Config, b: Board, s: Step, i: nat)
    requires Enabled(c, b, s) && i < |b.tasks| && !(s.Spawn? && s.i == i)
    requires b.tasks[i].status == Pending || (b.halted && b.tasks[i].status == Failed)
    ensures var b' := After(c, b, s);
      (b'.tasks[i] == b.tasks[i] && (b.halted ==> b'.halted)) || (b'.halted && b'.tasks[i].status == Failed)
  {
  }

  /** A retried task is not spawned again before its back-off, proportional to the attempts made, has passed. */
  lemma BackoffKept(c: Config, b: Board, steps: seq<Step>, k: nat, m: nat)
    requires Legal(c, b, steps) && k < m < |steps| && Fails(steps[k]) && steps[m].Spawn? && steps[m].i == steps[k].i
    requires forall j :: k < j < m ==> !(steps[j].Spawn? && steps[j].i == steps[k].i)
    ensures var b' := Exec(c, b, steps[..m]);
      steps[m].i < |b'.tasks| &&
      steps[m].nowMs >= steps[k].clockMs + c.retryBackoffMs * b'.tasks[steps[m].i].attemptsMade
  {
    hide Legal, Enabled, After, Settled, Exec;
    var i := steps[k].i;
    var b1, b2 := Exec(c, b, steps[..k]), Exec(c, b, steps[..m]);
    StepAt(c, b, steps, k);
    StepAt(c, b, steps, m);
    FailureMeaning(c, b1, steps[k]);
    SpawnDue(c, b2, steps[m]);
    PrefixLegal(c, b, steps, m);
    SameSize(c, b, steps[..k + 1]);
    SameSize(c, b, steps[..m]);
    assert steps[..m][..k + 1] == steps[..k + 1];
    if Exec(c, b, steps[..k + 1]).tasks[i].status == Pending {
      PendingKeeps(c, b, steps[..m], k + 1, i);
    } else {
      FailedKeeps(c, b, steps[..m], k + 1, i);
    }
  }

  lemma StepAt(c: Config, b: Board, steps: seq<Step>, k: nat)
    requires Legal(c, b, steps) && k < |steps|
    ensures Enabled(c, Exec(c, b, steps[..k]), steps[k])
    ensures steps[k].i < |b.tasks| == |Exec(c, b, steps[..k]).tasks|
    ensures Exec(c, b, steps[..k + 1]) == After(c, Exec(c, b, steps[..k]), steps[k])
  {
    hide After, Legal;
    PrefixLegal(c, b, steps, k + 1);
    SameSize(c, b, steps[..k]);
    assert steps[..k + 1][..k] == steps[..k];
  }

  lemma SpawnDue(c: Config, b: Board, s: Step)
    requires Enabled(c, b, s) && s.Spawn?
    ensures !b.halted && b.tasks[s.i].status == Pending && b.tasks[s.i].nextRunAtMs <= s.nowMs
  {
  }

  lemma {:induction false} FailedKeeps(c: Config, b: Board, steps: seq<Step>, k: nat, i: nat)
    requires Legal(c, b, steps) && k <= |steps| && i < |b.tasks|
    requires |Exec(c, b, steps[..k]).tasks| == |Exec(c, b, steps).tasks| == |b.tasks|
    requires Exec(c, b, steps[..k]).tasks[i].status == Failed
    ensures Exec(c, b, steps).tasks[i].status == Failed
  {
    hide Legal, Enabled, After;
    if k == |steps| {
      assert steps[..k] == steps;
    } else {
      var n := |steps| - 1;
      assert steps[..n][..k] == steps[..k];
      LegalEnd(c, b, steps);
      SameSize(c, b, steps[..n]);
      FailedKeeps(c, b, steps[..n], k, i);
      StaysFailed(c, Exec(c, b, steps[..n]), steps[n], i);
    }
  }

  /** Every prefix of a run is a run, and its last step was possible. */
  lemma {:induction false} PrefixLegal(c: Config, b: Board, steps: seq<Step>, n: nat)
    requires Legal(c, b, steps) && n <= |steps|
    ensures Legal(c, b, steps[..n])
    ensures n > 0 ==> Enabled(c, Exec(c, b, steps[..n - 1]), steps[n - 1])
    decreases |steps|
  {
    hide Enabled, After;
    if n == |steps| {
      assert steps[..n] == steps;
    } else {
      PrefixLegal(c, b, steps[..|steps| - 1], n);
      assert steps[..|steps| - 1][..n] == steps[..n];
      if n > 0 { assert steps[..|steps| - 1][..n - 1] == steps[..n - 1]; }
    }
  }

  // ---------------------------------------------------------------- laws

  lemma WorkUpdate(tasks: seq<Task>, i: nat, t: Task)
    requires i < |tasks|
    ensures Work(tasks[i := t]) == Work(tasks) - Remaining(tasks[i]) + Remaining(t)
  {
    SumUpdate(Remaining, tasks, i, t);
  }

  lemma SettledWork(c: Config, b: Board, i: nat, t: Task)
    requires i < |b.tasks| && Remaining(t) < Remaining(b.tasks[i])
    ensures Work(Settled(c, b, i, t).tasks) < Work(b.tasks)
  {
    hide Remaining, Sum, SkippedTo;
    WorkUpdate(b.tasks, i, t);
    SkippedWork(b.tasks[i := t]);
  }

  /** Every dispatch and every exit uses up work. */
  lemma StepFalls(c: Config, b: Board, s: Step)
    requires Enabled(c, b, s)
    ensures Work(After(c, b, s).tasks) < Work(b.tasks)
  {
    hide Work, Settled;
    match s
    case Spawn(i, _, started, clockMs) =>
      var t := Spawned(b.tasks[i]);
      if started {
        WorkUpdate(b.tasks, i, t);
      } else {
        SettledWork(c, b, i, AfterFailure(t, -1, clockMs, c.retryBackoffMs));
      }
    case Exit(i, success, exitCode, clockMs) =>
      SettledWork(c, b, i, AfterExit(b.tasks[i], success, exitCode, clockMs, c.retryBackoffMs));
  }

  /** No run makes more steps than there is work at its start. */
  lemma {:induction false} RunBound(c: Config, b: Board, steps: seq<Step>)
    requires Legal(c, b, steps)
    ensures |steps| + Work(Exec(c, b, steps).tasks) <= Work(b.tasks)
  {
    hide Work, Enabled, After;
    if steps != [] {
      var n := |steps| - 1;
      RunBound(c, b, steps[..n]);
      StepFalls(c, Exec(c, b, steps[..n]), steps[n]);
    }
  }

  lemma SettledStuck(c: Config, b: Board, i: nat, t: Task)
    requires i < |b.tasks| && (b.tasks[i].status == Running || !b.halted)
    ensures Stuck(Settled(c, b, i, t)) <==> b.halted && (Waiting(b) || t.status == Pending)
  {
    var b' := Settled(c, b, i, t);
    if b.halted {
      assert b'.tasks == b.tasks[i := t] && b'.tasks[i] == t;
      if k :| 0 <= k < |b.tasks| && b.tasks[k].status == Pending {
        assert b'.tasks[k].status == Pending;
      }
    }
  }

  /** A step leads to a stuck state only from one, or when a halted run gets a task back. */
  lemma StuckStep(c: Config, b: Board, s: Step)
    requires Enabled(c, b, s)
    ensures Stuck(After(c, b, s)) <==> Stuck(b) || RetriesHalted(b, s)
  {
    hide Settled, Waiting;
    match s
    case Spawn(i, _, started, clockMs) =>
      SettledStuck(c, b, i, AfterFailure(Spawned(b.tasks[i]), -1, clockMs, c.retryBackoffMs));
    case Exit(i, success, exitCode, clockMs) =>
      SettledStuck(c, b, i, AfterExit(b.tasks[i], success, exitCode, clockMs, c.retryBackoffMs));
  }

  /** A run is stuck at its end exactly when it was at its start, or a worker failed with attempts left after the
      halt. */
  lemma {:induction false} StuckIff(c: Config, b: Board, steps: seq<Step>)
    requires Legal(c, b, steps)
    ensures Stuck(Exec(c, b, steps)) <==> Stuck(b) || RetriesAfterHalt(c, b, steps)
  {
    hide Stuck, Enabled, After, RetriesHalted;
    if steps != [] {
      var n := |steps| - 1;
      StuckIff(c, b, steps[..n]);
      StuckStep(c, Exec(c, b, steps[..n]), steps[n]);
      assert forall k :: 0 <= k <= n ==> steps[..n][..k] == steps[..k];
      if k :| 0 <= k < n && RetriesHalted(Exec(c, b, steps[..n][..k]), steps[..n][k]) {
        assert RetriesHalted(Exec(c, b, steps[..k]), steps[k]);
      }
      if k :| 0 <= k < |steps| && RetriesHalted(Exec(c, b, steps[..k]), steps[k]) {
        assert k == n || RetriesHalted(Exec(c, b, steps[..n][..k]), steps[..n][k]);
      }
    }
  }

  lemma {:induction false} NoneBusy(tasks: seq<Task>)
    requires forall i :: 0 <= i < |tasks| ==> tasks[i].status != Running
    ensures Sum(IsBusy, tasks) == 0
  {
    if tasks != [] {
      NoneBusy(tasks[..|tasks| - 1]);
    }
  }

  /** With a cell, a run can go on until no worker runs and, unless it is halted, nothing is pending. */
  lemma QuietIff(c: Config, b: Board)
    requires c.cellCount > 0
    ensures Quiet(c, b) <==> !Busy(b) && (b.halted || !Waiting(b))
  {
    if i :| 0 <= i < |b.tasks| && b.tasks[i].status == Running {
      assert Enabled(c, b, Exit(i, true, 0, 0));
    } else {
      NoneBusy(b.tasks);
      if i :| !b.halted && 0 <= i < |b.tasks| && b.tasks[i].status == Pending {
        assert Enabled(c, b, Spawn(i, b.tasks[i].nextRunAtMs, true, 0));
      }
    }
  }

  /** A run that cannot go on has made at most as many steps as there was work, and it has finished every task unless
      a worker failed with attempts left after the halt. */
  lemma RunEnds(c: Config, b: Board, steps: seq<Step>)
    requires c.cellCount > 0 && Legal(c, b, steps) && Quiet(c, Exec(c, b, steps))
    ensures |steps| <= Work(b.tasks)
    ensures AllDone(Exec(c, b, steps)) <==> !Stuck(b) && !RetriesAfterHalt(c, b, steps)
  {
    hide Legal, Work, Waiting, Busy, Quiet, RetriesAfterHalt;
    RunBound(c, b, steps);
    WorkBound(Exec(c, b, steps).tasks);
    StuckIff(c, b, steps);
    QuietIff(c, Exec(c, b, steps));
  }

  /** What every run ends with. */
  lemma RunLaws(c: Config, b: Board, b': Board, steps: seq<Step>)
    requires c.cellCount > 0 && Legal(c, b, steps) && b' == Exec(c, b, steps)
    ensures |steps| + Work(b'.tasks) <= Work(b.tasks) && |b'.tasks| == |b.tasks|
    ensures forall i :: 0 <= i < |b.tasks| && b'.tasks[i].status == Failed && b.tasks[i].status != Failed ==>
      b'.tasks[i].attemptsMade > b'.tasks[i].maxRetries || (c.stopOnFailure && b'.tasks[i].lastExitCode == -2)
    ensures AllDone(b') ==> !Stuck(b) && !RetriesAfterHalt(c, b, steps)
    ensures Quiet(c, b') ==> (AllDone(b') <==> !Stuck(b) && !RetriesAfterHalt(c, b, steps))
  {
    assert AllDone(b') ==> !Stuck(b');
    RunBound(c, b, steps);
    FailedTasks(c, b, b', steps);
    StuckIff(c, b, steps);
    hide Legal, Exec, Work, Stuck, AllDone, Quiet, RetriesAfterHalt;
    if Quiet(c, b') {
      RunEnds(c, b, steps);
    }
  }

  /** Without stop-on-failure nothing is ever halted, so every run that cannot go on has finished every task. */
  lemma {:induction false} NeverHalted(c: Config, b: Board, steps: seq<Step>)
    requires !c.stopOnFailure && !b.halted && Legal(c, b, steps)
    ensures !Exec(c, b, steps).halted
    ensures c.cellCount > 0 && Quiet(c, Exec(c, b, steps)) ==> AllDone(Exec(c, b, steps))
  {
    hide Quiet, AllDone;
    if steps != [] {
      NeverHalted(c, b, steps[..|steps| - 1]);
    }
    if c.cellCount > 0 && Quiet(c, Exec(c, b, steps)) {
      StuckIff(c, b, steps);
      RunEnds(c, b, steps);
    }
  }

  /** A halted task list in which nothing is pending and no running task has attempts left. */
  predicate Settling(b: Board) {
    b.halted && forall i :: 0 <= i < |b.tasks| ==>
      b.tasks[i].status != Pending && (b.tasks[i].status == Running ==> !ShouldRetry(b.tasks[i]))
  }

  lemma {:induction false} StaysSettling(c: Config, b: Board, steps: seq<Step>)
    requires Settling(b) && Legal(c, b, steps)
    ensures Settling(Exec(c, b, steps))
  {
    if steps != [] {
      StaysSettling(c, b, steps[..|steps| - 1]);
    }
  }

  lemma HaltClears(c: Config, b: Board, s: Step)
    requires Enabled(c, b, s) && !b.halted && After(c, b, s).halted
    ensures !Waiting(After(c, b, s))
  {
  }

  predicate RetryRunning(b: Board) {
    exists i :: 0 <= i < |b.tasks| && b.tasks[i].status == Running && ShouldRetry(b.tasks[i])
  }

  /** At a halt: some continuation gets stuck exactly when a task that is still running then has attempts left. */
  lemma StuckAfterHaltIff(c: Config, b: Board, s: Step)
    requires Enabled(c, b, s) && !b.halted && After(c, b, s).halted
    ensures (exists steps :: Legal(c, After(c, b, s), steps) && Stuck(Exec(c, After(c, b, s), steps))) <==>
            RetryRunning(After(c, b, s))
  {
    var b' := After(c, b, s);
    HaltClears(c, b, s);
    hide After, Enabled;
    if i :| 0 <= i < |b'.tasks| && b'.tasks[i].status == Running && ShouldRetry(b'.tasks[i]) {
      var exit := Exit(i, false, 1, 0);
      CanExit(c, b', exit);
      StuckStep(c, b', exit);
      OneStep(c, b', exit);
      assert RetriesHalted(b', exit);
      assert Legal(c, b', [exit]) && Stuck(Exec(c, b', [exit]));
    } else {
      forall steps | Legal(c, b', steps) ensures !Stuck(Exec(c, b', steps)) {
        StaysSettling(c, b', steps);
      }
    }
  }

  lemma CanExit(c: Config, b: Board, s: Step)
    requires s.Exit? && s.i < |b.tasks| && b.tasks[s.i].status == Running
    ensures Enabled(c, b, s)
  {
  }

  lemma {:induction false} ExecAppend(c: Config, b: Board, first: seq<Step>, more: seq<Step>)
    requires Legal(c, b, first) && Legal(c, Exec(c, b, first), more)
    ensures Legal(c, b, first + more) && Exec(c, b, first + more) == Exec(c, Exec(c, b, first), more)
  {
    hide Enabled, After;
    if more == [] {
      assert first + more == first;
    } else {
      var n := |more| - 1;
      var all := first + more;
      ExecAppend(c, b, first, more[..n]);
      assert all[..|all| - 1] == first + more[..n];
    }
  }

  lemma LegalSnoc(c: Config, b: Board, steps: seq<Step>, s: Step)
    requires Legal(c, b, steps) && Enabled(c, Exec(c, b, steps), s)
    ensures Legal(c, b, steps + [s]) && Exec(c, b, steps + [s]) == After(c, Exec(c, b, steps), s)
  {
    hide Enabled, After;
    assert (steps + [s])[..|steps|] == steps;
  }

  lemma OneStep(c: Config, b: Board, s: Step)
    requires Enabled(c, b, s)
    ensures Legal(c, b, [s]) && Exec(c, b, [s]) == After(c, b, s)
  {
    hide Enabled, After;
    assert [s][..0] == [];
    assert Legal(c, b, []) && Exec(c, b, []) == b;
  }
}
