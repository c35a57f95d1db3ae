/** Laws of every workflow run, whatever the step graph and however plugins, users, analyzers and reporters answer. */
module WorkflowLaws {

  import opened Workflow

  // ---------------------------------------------------------------- transitions

  lemma {:induction false} PathPrefix(def: Definition, log: seq<Visit>, n: nat)
    requires Path(def, log) && n <= |log|
    ensures Path(def, log[..n])
  {
    if n == |log| {
      assert log[..n] == log;
    } else {
      PathPrefix(def, log[..|log| - 1], n);
      assert log[..|log| - 1][..n] == log[..n];
    }
  }

  /** Every visit on a path was a possible next visit. */
  lemma NextAt(def: Definition, log: seq<Visit>, i: nat)
    requires Path(def, log) && i < |log|
    ensures Next(def, log[..i], log[i])
  {
    hide Next;
    PathPrefix(def, log, i + 1);
    assert log[..i + 1][..i] == log[..i];
  }

  lemma {:induction false} TransitionBound(def: Definition, log: seq<Visit>, id: string)
    requires Path(def, log)
    ensures |log| <= 1024 && Visits(log, id) <= 100
  {
    if log != [] {
      TransitionBound(def, log[..|log| - 1], id);
    }
  }

  /** The loop gives up exactly after 1024 transitions, at a step that does not exist, or after 100 visits of it. */
  lemma RefusedIff(def: Definition, log: seq<Visit>, id: string)
    ensures Refused(def, log, id) <==>
      |log| >= 1024 || Visits(log, id) >= 100 || forall s :: s in def.steps ==> s.stepId != id
  {
    if i :| 0 <= i < |def.steps| && def.steps[i].stepId == id {
      assert def.steps[i] in def.steps;
    }
  }

  /** The first visit is to the entry step, or to the first step when none is named. */
  lemma FirstVisit(def: Definition, log: seq<Visit>)
    requires WellFormed(def) && Path(def, log) && log != []
    ensures log[0].step.stepId == if def.entryStepId != "" then def.entryStepId else def.steps[0].stepId
  {
    NextAt(def, log, 0);
    assert log[..0] == [];
  }

  function Ids(steps: seq<Step>): set<string> { set s | s in steps :: s.stepId }

  /** A definition is accepted exactly when it has steps, their ids are distinct and not empty, and the entry is one of
      them. */
  lemma AcceptedIff(def: Definition)
    ensures WellFormed(def) <==>
      && def.steps != [] && |Ids(def.steps)| == |def.steps| && "" !in Ids(def.steps)
      && (if def.entryStepId != "" then def.entryStepId else def.steps[0].stepId) in Ids(def.steps)
  {
    DistinctCount(def.steps);
    IdsAt(def.steps, "");
    IdsAt(def.steps, Entry(def));
    hide Ids;
  }

  lemma IdsAt(steps: seq<Step>, id: string)
    ensures id in Ids(steps) <==> exists i :: 0 <= i < |steps| && steps[i].stepId == id
  {
    if i :| 0 <= i < |steps| && steps[i].stepId == id {
      assert steps[i] in steps;
    }
  }

  lemma IdsLast(steps: seq<Step>)
    requires steps != []
    ensures Ids(steps) == Ids(steps[..|steps| - 1]) + {steps[|steps| - 1].stepId}
  {
    assert steps == steps[..|steps| - 1] + [steps[|steps| - 1]];
  }

  predicate DistinctSteps(steps: seq<Step>) {
    forall i, j :: 0 <= i < j < |steps| ==> steps[i].stepId != steps[j].stepId
  }

  lemma DistinctLast(steps: seq<Step>)
    requires steps != []
    ensures var n := |steps| - 1;
      DistinctSteps(steps) <==> DistinctSteps(steps[..n]) && steps[n].stepId !in Ids(steps[..n])
  {
    var n := |steps| - 1;
    IdsAt(steps[..n], steps[n].stepId);
    hide Ids;
    if i :| 0 <= i < n && steps[..n][i].stepId == steps[n].stepId {
      assert steps[i].stepId == steps[n].stepId;
    } else {
      assert forall i :: 0 <= i < n ==> steps[..n][i] == steps[i];
    }
  }

  lemma {:induction false} DistinctCount(steps: seq<Step>)
    ensures |Ids(steps)| <= |steps| && (|Ids(steps)| == |steps| <==> DistinctSteps(steps))
  {
    if steps != [] {
      var n := |steps| - 1;
      DistinctCount(steps[..n]);
      IdsLast(steps);
      DistinctLast(steps);
      hide Ids, DistinctSteps;
      if steps[n].stepId in Ids(steps[..n]) {
        assert Ids(steps) == Ids(steps[..n]);
      }
    }
  }

  function Batches(log: seq<Visit>, group: string): nat {
    if log == [] then 0 else Batches(log[..|log| - 1], group) + if OpensBatch(log[|log| - 1], group) then 1 else 0
  }

  lemma {:induction false} NoneProcessed(log: seq<Visit>, group: string)
    ensures Batches(log, group) == 0 <==> !Processed(log, group)
  {
    if log != [] {
      var n := |log| - 1;
      NoneProcessed(log[..n], group);
      if Processed(log[..n], group) {
        var i :| 0 <= i < n && OpensBatch(log[..n][i], group);
        assert OpensBatch(log[i], group);
      }
      if Processed(log, group) && !OpensBatch(log[n], group) {
        var i :| 0 <= i < |log| && OpensBatch(log[i], group);
        assert OpensBatch(log[..n][i], group);
      }
    }
  }

  /** One batch per group. */
  lemma {:induction false} OneBatch(def: Definition, log: seq<Visit>, group: string)
    requires Path(def, log)
    ensures Batches(log, group) <= 1
  {
    if log != [] {
      OneBatch(def, log[..|log| - 1], group);
      NoneProcessed(log[..|log| - 1], group);
    }
  }

  // ---------------------------------------------------------------- counting events

  function Count(t: seq<Event>, p: Event -> bool): nat {
    if t == [] then 0 else Count(t[..|t| - 1], p) + if p(t[|t| - 1]) then 1 else 0
  }

  lemma {:induction false} CountAppend(t: seq<Event>, u: seq<Event>, p: Event -> bool)
    ensures Count(t + u, p) == Count(t, p) + Count(u, p)
  {
    if u == [] {
      assert t + u == t;
    } else {
      CountAppend(t, u[..|u| - 1], p);
      assert (t + u)[..|t + u| - 1] == t + u[..|u| - 1];
    }
  }

  lemma CountOne(e: Event, p: Event -> bool)
    ensures Count([e], p) == if p(e) then 1 else 0
  {
    assert [e][..0] == [];
  }

  lemma CountTwo(e: Event, f: Event, p: Event -> bool)
    ensures Count([e, f], p) == (if p(e) then 1 else 0) + if p(f) then 1 else 0
  {
    assert [e, f][..1] == [e];
    CountOne(e, p);
  }

  lemma {:induction false} CountNone(t: seq<Event>, p: Event -> bool)
    requires forall i :: 0 <= i < |t| ==> !p(t[i])
    ensures Count(t, p) == 0
  {
    if t != [] {
      CountNone(t[..|t| - 1], p);
    }
  }

  // ---------------------------------------------------------------- the phases of a run

  predicate OfLoop(e: Event) {
    e.Paused? || e.Resumed? || e.BreakConditionMet? || e.ActivitySkipped? || e.ActivityStarted? ||
        e.ActivityFinished? ||
    e.ActivityRetry? || e.ActivityFailed? || e.BatchStarted? || e.BatchSkipped? || e.BatchFinished?
  }

  predicate OfCompensation(e: Event) {
    e.CompensationStarted? || e.CompensationFinished? || e.CompensationFailed?
  }

  predicate OfChecks(e: Event) {
    e.AnalyzerStarted? || e.AnalyzerFinished? || e.AnalyzerFailed? || e.ReporterStarted? || e.ReporterFinished? ||
    e.VerdictPublished?
  }

  ghost predicate All(t: seq<Event>, p: Event -> bool) {
    forall i :: 0 <= i < |t| ==> p(t[i])
  }

  lemma {:induction false} TriesOfLoop(id: string, k: nat)
    ensures All(Tries(id, k), OfLoop)
  {
    if k > 0 {
      TriesOfLoop(id, k - 1);
    }
  }

  lemma {:induction false} RunsOfLoop(runs: seq<StepRun>)
    ensures All(RunsTrace(runs), OfLoop)
  {
    hide RunTrace, OfLoop;
    if runs != [] {
      RunsOfLoop(runs[..|runs| - 1]);
      RunOfLoop(runs[|runs| - 1]);
    }
  }

  lemma RunOfLoop(r: StepRun)
    ensures All(RunTrace(r), OfLoop)
  {
    TriesOfLoop(r.step.stepId, r.failures);
  }

  lemma AllThree(head: seq<Event>, t: seq<Event>, last: seq<Event>, p: Event -> bool)
    requires All(head, p) && All(t, p) && All(last, p)
    ensures All(head + t + last, p)
  {
  }

  lemma VisitOfLoop(v: Visit)
    ensures All(VisitTrace(v), OfLoop)
  {
    hide RunTrace, RunsTrace, AnyHardFailed;
    match v
    case Single(s, paused, r) =>
      RunOfLoop(r);
      AllThree(PauseTrace(s.stepId, paused), RunTrace(r),
               if Breaks(s, r.outcome) then [BreakConditionMet(s.stepId)] else [], OfLoop);
    case Batch(s, paused, runs) =>
      var group := s.parallelGroupId;
      RunsOfLoop(runs);
      AllThree([BatchStarted(group)] + PauseTrace(group, paused), RunsTrace(runs),
               [BatchFinished(group, AnyHardFailed(runs))], OfLoop);
    case _ =>
  }

  lemma {:induction false} LogOfLoop(log: seq<Visit>)
    ensures All(LogTrace(log), OfLoop)
  {
    hide OfLoop, VisitTrace;
    if log != [] {
      LogOfLoop(log[..|log| - 1]);
      VisitOfLoop(log[|log| - 1]);
    }
  }

  lemma {:induction false} AnalyzersOfChecks(ids: seq<string>)
    ensures All(AnalyzersTrace(ids), OfChecks)
  {
    if ids != [] {
      AnalyzersOfChecks(ids[..|ids| - 1]);
    }
  }

  lemma {:induction false} ReportersOfChecks(ids: seq<string>)
    ensures All(ReportersTrace(ids), OfChecks)
  {
    if ids != [] {
      ReportersOfChecks(ids[..|ids| - 1]);
    }
  }

  lemma {:induction false} RollbacksOfCompensation(def: Definition, plan: seq<Rollback>, answers: seq<bool>)
    requires |answers| == |plan|
    ensures All(RollbacksTrace(def, plan, answers), OfCompensation)
  {
    if plan != [] {
      RollbacksOfCompensation(def, plan[..|plan| - 1], answers[..|plan| - 1]);
    }
  }

  function One(e: Event, p: Event -> bool): nat { if p(e) then 1 else 0 }

  ghost predicate Ignores(p: Event -> bool, q: Event -> bool) {
    forall e :: q(e) ==> !p(e)
  }

  lemma CountIgnored(t: seq<Event>, p: Event -> bool, q: Event -> bool)
    requires All(t, q) && Ignores(p, q)
    ensures Count(t, p) == 0
  {
    CountNone(t, p);
  }

  lemma CountConclusion(def: Definition, e: Ending, p: Event -> bool)
    requires e.AnalyzerRefused? ==> e.k < |def.analyzers|
    requires e.ReporterRefused? ==> e.k < |def.reporters|
    requires Ignores(p, OfChecks)
    ensures Count(ConclusionTrace(def, e), p) ==
            (if e.LoopFailed? then 0 else One(LeasesReleased, p) + One(PluginsNotified, p)) +
            if e.Completed? then One(WorkflowFinished, p) else 0
  {
    hide Count, AnalyzersTrace, ReportersTrace;
    if e.LoopFailed? {
      CountNone([], p);
    } else {
      var a := if e.AnalyzerRefused? then def.analyzers[..e.k] else def.analyzers;
      var r := if e.AnalyzerRefused? then [] else if e.ReporterRefused? then def.reporters[..e.k] else def.reporters;
      var head := [LeasesReleased, PluginsNotified, VerdictPublished];
      var last :=
        if e.AnalyzerRefused? then [AnalyzerStarted(def.analyzers[e.k]), AnalyzerFailed(def.analyzers[e.k])]
        else if e.ReporterRefused? then [ReporterStarted(def.reporters[e.k])] else [WorkflowFinished];
      assert ConclusionTrace(def, e) == head + AnalyzersTrace(a) + ReportersTrace(r) + last by {
        assert ReportersTrace([]) == [] by { EmptyReporters(); }
      }
      CountAppend(head + AnalyzersTrace(a) + ReportersTrace(r), last, p);
      CountAppend(head + AnalyzersTrace(a), ReportersTrace(r), p);
      CountAppend(head, AnalyzersTrace(a), p);
      AnalyzersOfChecks(a);
      ReportersOfChecks(r);
      CountIgnored(AnalyzersTrace(a), p, OfChecks);
      CountIgnored(ReportersTrace(r), p, OfChecks);
      assert head == [LeasesReleased, PluginsNotified] + [VerdictPublished];
      CountAppend([LeasesReleased, PluginsNotified], [VerdictPublished], p);
      CountTwo(LeasesReleased, PluginsNotified, p);
      CountOne(VerdictPublished, p);
      if e.AnalyzerRefused? {
        CountTwo(AnalyzerStarted(def.analyzers[e.k]), AnalyzerFailed(def.analyzers[e.k]), p);
      } else {
        CountOne(last[0], p);
      }
    }
  }

  lemma EmptyReporters()
    ensures ReportersTrace([]) == []
  {
  }

  lemma CountFailure(def: Definition, executed: seq<string>, answers: seq<bool>, p: Event -> bool)
    requires |answers| == |Plan(def, executed)|
    ensures Count(FailureTrace(def, executed, answers), p) ==
            One(WorkflowFailed, p) + Count(RollbacksTrace(def, Plan(def, executed), answers), p) +
            One(LeasesReleased, p) + One(PluginsNotified, p)
  {
    hide Count, RollbacksTrace, Plan;
    var t := RollbacksTrace(def, Plan(def, executed), answers);
    CountAppend([WorkflowFailed] + t, [LeasesReleased, PluginsNotified], p);
    CountAppend([WorkflowFailed], t, p);
    CountTwo(LeasesReleased, PluginsNotified, p);
    CountOne(WorkflowFailed, p);
  }

  /** Where the events of a run come from. */
  lemma CountTrace(def: Definition, run: Run, p: Event -> bool)
    requires IsRun(def, run) && Ignores(p, OfChecks)
    ensures Count(Trace(def, run), p) ==
            One(WorkflowStarted, p) + Count(LogTrace(run.log), p) +
            (if run.ending.LoopFailed? then 0 else One(LeasesReleased, p) + One(PluginsNotified, p)) +
            if run.ending.Completed? then One(WorkflowFinished, p)
            else
              One(WorkflowFailed, p) +
              Count(RollbacksTrace(def, Plan(def, LogExecuted(run.log)), run.answers), p) +
              One(LeasesReleased, p) + One(PluginsNotified, p)
  {
    hide Count, RollbacksTrace, Plan, ConclusionTrace, FailureTrace, LogTrace, Path, Stuck, Through;
    var log, e := LogTrace(run.log), ConclusionTrace(def, run.ending);
    var last := if run.ending.Completed? then [] else FailureTrace(def, LogExecuted(run.log), run.answers);
    CountAppend([WorkflowStarted] + log + e, last, p);
    CountAppend([WorkflowStarted] + log, e, p);
    CountAppend([WorkflowStarted], log, p);
    CountOne(WorkflowStarted, p);
    CountConclusion(def, run.ending, p);
    if run.ending.Completed? {
      CountNone([], p);
    } else {
      CountFailure(def, LogExecuted(run.log), run.answers, p);
    }
  }

  function IsStart(): Event -> bool { (e: Event) => e.WorkflowStarted? }
  function IsFinish(): Event -> bool { (e: Event) => e.WorkflowFinished? }
  function IsFailure(): Event -> bool { (e: Event) => e.WorkflowFailed? }
  function IsRelease(): Event -> bool { (e: Event) => e.LeasesReleased? }
  function IsNotice(): Event -> bool { (e: Event) => e.PluginsNotified? }

  /** Counting only what happens at the ends of a run. */
  lemma CountEnds(def: Definition, run: Run, p: Event -> bool)
    requires IsRun(def, run) && Ignores(p, OfChecks) && Ignores(p, OfLoop) && Ignores(p, OfCompensation)
    ensures Count(Trace(def, run), p) ==
            One(WorkflowStarted, p) +
            (if run.ending.LoopFailed? then 0 else One(LeasesReleased, p) + One(PluginsNotified, p)) +
            if run.ending.Completed? then One(WorkflowFinished, p)
            else One(WorkflowFailed, p) + One(LeasesReleased, p) + One(PluginsNotified, p)
  {
    hide Count, ConclusionTrace, FailureTrace, RollbacksTrace, LogTrace, Path, Stuck, Through, Plan, Ignores;
    CountTrace(def, run, p);
    LogOfLoop(run.log);
    CountIgnored(LogTrace(run.log), p, OfLoop);
    if !run.ending.Completed? {
      RollbacksOfCompensation(def, Plan(def, LogExecuted(run.log)), run.answers);
      CountIgnored(RollbacksTrace(def, Plan(def, LogExecuted(run.log)), run.answers), p, OfCompensation);
    }
  }

  /** A run publishes its start once and first, then exactly one of finished (exactly when it completes) or failed. The
      leases are released and the plugins notified once, but twice when an analyzer or reporter refuses. */
  lemma OneEnd(def: Definition, run: Run)
    requires IsRun(def, run)
    ensures var t := Trace(def, run);
            t[0] == WorkflowStarted && Count(t, IsStart()) == 1 &&
            Count(t, IsFinish()) == (if run.ending.Completed? then 1 else 0) &&
            Count(t, IsFailure()) == (if run.ending.Completed? then 0 else 1)
    ensures var t := Trace(def, run);
            var times := if run.ending.AnalyzerRefused? || run.ending.ReporterRefused? then 2 else 1;
            Count(t, IsRelease()) == times && Count(t, IsNotice()) == times
  {
    hide Count, ConclusionTrace, FailureTrace, LogTrace, Path, Stuck, Through, Plan;
    CountEnds(def, run, IsStart());
    CountEnds(def, run, IsFinish());
    CountEnds(def, run, IsFailure());
    CountEnds(def, run, IsRelease());
    CountEnds(def, run, IsNotice());
  }

  // ---------------------------------------------------------------- executions of a step

  function StartOf(id: string): Event -> bool { (e: Event) => e.ActivityStarted? && e.stepId == id }

  lemma {:induction false} TriesStarts(id: string, k: nat, x: string)
    ensures Count(Tries(id, k), StartOf(x)) == if x == id then k else 0
  {
    if k > 0 {
      TriesStarts(id, k - 1, x);
      CountAppend(Tries(id, k - 1), [ActivityStarted(id, k), ActivityRetry(id, k)], StartOf(x));
      CountTwo(ActivityStarted(id, k), ActivityRetry(id, k), StartOf(x));
    }
  }

  lemma RunStarts(def: Definition, r: StepRun, x: string)
    requires Possible(def, r)
    ensures Count(RunTrace(r), StartOf(x)) <= if x == r.step.stepId then Attempts(r.step) else 0
  {
    hide Count;
    var id := r.step.stepId;
    TriesStarts(id, r.failures, x);
    match r.outcome
    case Skipped =>
      CountOne(ActivitySkipped(id), StartOf(x));
    case Success =>
      var e, f := ActivityStarted(id, r.failures + 1), ActivityFinished(id, r.failures + 1);
      CountAppend(Tries(id, r.failures), [e, f], StartOf(x));
      CountTwo(e, f, StartOf(x));
    case ContinuedOnError =>
      CountAppend(Tries(id, r.failures), [ActivityFailed(id)], StartOf(x));
      CountOne(ActivityFailed(id), StartOf(x));
    case HardFailed =>
  }

  /** How often a step is executed by one call: not at all when it is skipped or its plugin is not loaded,
      maxRetries + 1 times when every attempt fails, and at least once and at most that often when one succeeds. */
  lemma AttemptsMeaning(def: Definition, r: StepRun)
    requires Possible(def, r)
    ensures var n := Count(RunTrace(r), StartOf(r.step.stepId));
      var most := if r.step.maxRetries < 0 then 0 else r.step.maxRetries + 1;
      && (r.outcome == Skipped ==> n == 0 && r.step.conditionKey != "")
      && (r.outcome == Success ==> 1 <= n <= most)
      && (r.outcome == ContinuedOnError ==> n == most && r.step.continueOnError)
      && (r.outcome == HardFailed ==> if r.step.pluginId in def.loaded && r.step.pluginId != ""
                                      then n == most && !r.step.continueOnError else n == 0)
      && (n > 0 ==> r.step.pluginId != "" && r.step.pluginId in def.loaded)
  {
    hide Count;
    var id := r.step.stepId;
    TriesStarts(id, r.failures, id);
    match r.outcome
    case Skipped =>
      CountOne(ActivitySkipped(id), StartOf(id));
    case Success =>
      var e, f := ActivityStarted(id, r.failures + 1), ActivityFinished(id, r.failures + 1);
      CountAppend(Tries(id, r.failures), [e, f], StartOf(id));
      CountTwo(e, f, StartOf(id));
    case ContinuedOnError =>
      CountAppend(Tries(id, r.failures), [ActivityFailed(id)], StartOf(id));
      CountOne(ActivityFailed(id), StartOf(id));
    case HardFailed =>
  }

  lemma {:induction false} TriesAt(id: string, k: nat)
    ensures |Tries(id, k)| == 2 * k
    ensures forall j :: 0 <= j < k ==>
      Tries(id, k)[2 * j] == ActivityStarted(id, j + 1) && Tries(id, k)[2 * j + 1] == ActivityRetry(id, j + 1)
  {
    if k > 0 {
      TriesAt(id, k - 1);
    }
  }

  /** What one call publishes: started and retry for each failed attempt, numbered from one, then its end. */
  lemma RunEvents(r: StepRun)
    ensures var id, k, t := r.step.stepId, r.failures, RunTrace(r);
      if r.outcome == Skipped then t == [ActivitySkipped(id)]
      else
        && |t| == 2 * k + (if r.outcome == Success then 2 else if r.outcome == ContinuedOnError then 1 else 0)
        && (forall j :: 0 <= j < k ==>
              t[2 * j] == ActivityStarted(id, j + 1) && t[2 * j + 1] == ActivityRetry(id, j + 1))
        && (r.outcome == Success ==>
              t[2 * k] == ActivityStarted(id, k + 1) && t[2 * k + 1] == ActivityFinished(id, k + 1))
        && (r.outcome == ContinuedOnError ==> t[2 * k] == ActivityFailed(id))
  {
    hide Tries;
    TriesAt(r.step.stepId, r.failures);
  }

  /** What the other visits publish: a pause that ends in a skip or an abort is not resumed, a skip without a pause is
      announced, and a group that had its batch is silent. */
  lemma DecisionEvents(s: Step)
    ensures VisitTrace(UserSkip(s, false)) == [ActivitySkipped(s.stepId)]
    ensures VisitTrace(UserSkip(s, true)) == [Paused(s.stepId), ActivitySkipped(s.stepId)]
    ensures VisitTrace(UserAbort(s, false)) == [] && VisitTrace(UserAbort(s, true)) == [Paused(s.stepId)]
    ensures VisitTrace(BatchSkip(s, false)) == [BatchStarted(s.parallelGroupId), BatchSkipped(s.parallelGroupId)]
    ensures VisitTrace(BatchSkip(s, true)) == [BatchStarted(s.parallelGroupId), Paused(s.parallelGroupId)]
    ensures VisitTrace(BatchAbort(s, false)) == [BatchStarted(s.parallelGroupId)]
    ensures VisitTrace(BatchAbort(s, true)) == [BatchStarted(s.parallelGroupId), Paused(s.parallelGroupId)]
    ensures VisitTrace(BatchAgain(s)) == []
  {
  }

  /** A step outside groups announces last that its break condition was met, exactly when it breaks on an error and
      hard-failed, or on a failure and failed at all. */
  lemma BreakEvent(v: Visit)
    requires v.Single?
    ensures BreakConditionMet(v.step.stepId) in VisitTrace(v) <==>
      || (v.run.outcome == HardFailed && (v.step.breakOnError || v.step.breakOnFail))
      || (v.run.outcome == ContinuedOnError && v.step.breakOnFail)
  {
    NoBreakInside(v.run);
    hide RunTrace;
  }

  lemma NoBreakInside(r: StepRun)
    ensures forall e :: e in RunTrace(r) ==> !e.BreakConditionMet?
  {
    RunEvents(r);
    TriesQuiet(r.step.stepId, r.failures);
    hide Tries;
  }

  lemma {:induction false} TriesQuiet(id: string, k: nat)
    ensures forall e :: e in Tries(id, k) ==> e.ActivityStarted? || e.ActivityRetry?
  {
    if k > 0 {
      TriesQuiet(id, k - 1);
    }
  }

  lemma {:induction false} RunsStarts(def: Definition, runs: seq<StepRun>, s: Step)
    requires forall i, j :: 0 <= i < j < |runs| ==> runs[i].step.stepId != runs[j].step.stepId
    requires forall i :: 0 <= i < |runs| ==> Possible(def, runs[i])
    requires forall i :: 0 <= i < |runs| && runs[i].step.stepId == s.stepId ==> runs[i].step == s
    ensures Count(RunsTrace(runs), StartOf(s.stepId)) <= if Ran(runs, s) then Attempts(s) else 0
  {
    hide Count, Possible, RunTrace, Attempts, Ran;
    if runs == [] {
      CountNone([], StartOf(s.stepId));
    } else {
      var n := |runs| - 1;
      RunsStarts(def, runs[..n], s);
      CountAppend(RunsTrace(runs[..n]), RunTrace(runs[n]), StartOf(s.stepId));
      RunStarts(def, runs[n], s.stepId);
      RanLast(runs, s);
    }
  }

  lemma RanLast(runs: seq<StepRun>, s: Step)
    requires runs != []
    requires forall i, j :: 0 <= i < j < |runs| ==> runs[i].step.stepId != runs[j].step.stepId
    ensures var n := |runs| - 1;
            if runs[n].step == s then Ran(runs, s) && !Ran(runs[..n], s) else Ran(runs, s) == Ran(runs[..n], s)
  {
    var n := |runs| - 1;
    if Ran(runs[..n], s) {
      var i :| 0 <= i < n && runs[..n][i].step == s;
      assert runs[i].step == s;
    }
    if Ran(runs, s) && runs[n].step != s {
      var i :| 0 <= i < |runs| && runs[i].step == s;
      assert runs[..n][i].step == s;
    }
  }

  lemma VisitStarts(def: Definition, log: seq<Visit>, v: Visit, s: Step)
    requires WellFormed(def) && s in def.steps && Next(def, log, v)
    ensures Count(VisitTrace(v), StartOf(s.stepId)) <=
            if (if Parallel(s) then OpensBatch(v, s.parallelGroupId) else v.step == s) then Attempts(s) else 0
  {
    match v
    case Single(_, _, _) => SingleStarts(def, v, s);
    case Batch(_, _, _) => BatchStarts(def, v, s);
    case _ => NoStarts(v, s.stepId);
  }

  lemma NoStarts(v: Visit, x: string)
    requires !v.Single? && !v.Batch?
    ensures Count(VisitTrace(v), StartOf(x)) == 0
  {
    CountNone(VisitTrace(v), StartOf(x));
  }

  lemma SingleStarts(def: Definition, v: Visit, s: Step)
    requires WellFormed(def) && s in def.steps && v.Single? && v.step in def.steps && !Parallel(v.step)
    requires v.run.step == v.step && Possible(def, v.run)
    ensures Count(VisitTrace(v), StartOf(s.stepId)) <= if v.step == s then Attempts(s) else 0
  {
    hide Count, Possible, WellFormed, RunTrace;
    var id := v.step.stepId;
    var head := PauseTrace(id, v.paused);
    var last := if Breaks(v.step, v.run.outcome) then [BreakConditionMet(id)] else [];
    CountAppend(head + RunTrace(v.run), last, StartOf(s.stepId));
    CountAppend(head, RunTrace(v.run), StartOf(s.stepId));
    CountNone(head, StartOf(s.stepId));
    CountNone(last, StartOf(s.stepId));
    RunStarts(def, v.run, s.stepId);
    if v.step.stepId == s.stepId {
      UniqueStep(def, v.step, s);
    }
  }

  lemma BatchStarts(def: Definition, v: Visit, s: Step)
    requires WellFormed(def) && s in def.steps && v.Batch? && EachOnce(def, v.step.parallelGroupId, v.runs)
    requires forall i :: 0 <= i < |v.runs| ==> Possible(def, v.runs[i])
    ensures Count(VisitTrace(v), StartOf(s.stepId)) <=
            if s.parallelGroupId == v.step.parallelGroupId then Attempts(s) else 0
  {
    hide Count, Possible, WellFormed, RunsTrace;
    var group := v.step.parallelGroupId;
    var head := [BatchStarted(group)] + PauseTrace(group, v.paused);
    var last := [BatchFinished(group, AnyHardFailed(v.runs))];
    CountAppend(head + RunsTrace(v.runs), last, StartOf(s.stepId));
    CountAppend(head, RunsTrace(v.runs), StartOf(s.stepId));
    CountNone(head, StartOf(s.stepId));
    CountNone(last, StartOf(s.stepId));
    forall i | 0 <= i < |v.runs| && v.runs[i].step.stepId == s.stepId ensures v.runs[i].step == s {
      UniqueStep(def, v.runs[i].step, s);
    }
    RunsStarts(def, v.runs, s);
  }

  lemma {:induction false} LogAttempts(def: Definition, log: seq<Visit>, s: Step)
    requires WellFormed(def) && s in def.steps && Path(def, log)
    ensures Count(LogTrace(log), StartOf(s.stepId)) <=
            Attempts(s) * if Parallel(s) then Batches(log, s.parallelGroupId) else Visits(log, s.stepId)
  {
    hide Next, Attempts, WellFormed, Count, VisitTrace, OpensBatch, StartOf;
    var k := Attempts(s);
    if log != [] {
      var n := |log| - 1;
      LogAttempts(def, log[..n], s);
      VisitStarts(def, log[..n], log[n], s);
      CountAppend(LogTrace(log[..n]), VisitTrace(log[n]), StartOf(s.stepId));
      OneMore(k, if Parallel(s) then Batches(log[..n], s.parallelGroupId) else Visits(log[..n], s.stepId));
    } else {
      CountNone([], StartOf(s.stepId));
    }
  }

  /** Executions on a path: at most maxRetries + 1 a visit, and for a group member at most maxRetries + 1 a batch. */
  lemma LogStarts(def: Definition, log: seq<Visit>, s: Step)
    requires WellFormed(def) && s in def.steps && Path(def, log)
    ensures Count(LogTrace(log), StartOf(s.stepId)) <=
            (if s.maxRetries < 0 then 0 else s.maxRetries + 1) *
            if s.parallelGroupId != "" then Batches(log, s.parallelGroupId) else Visits(log, s.stepId)
  {
    LogAttempts(def, log, s);
    hide LogTrace, Count, WellFormed, Path, Batches, Visits;
  }

  lemma RunAttempts(def: Definition, run: Run, s: Step)
    requires WellFormed(def) && s in def.steps && IsRun(def, run)
    ensures Count(Trace(def, run), StartOf(s.stepId)) <= Attempts(s) * if Parallel(s) then 1 else 100
  {
    hide Count, LogTrace, ConclusionTrace, FailureTrace, RollbacksTrace, Plan, Path, Stuck, Through, WellFormed,
        Attempts;
    var p := StartOf(s.stepId);
    LogAttempts(def, run.log, s);
    TransitionBound(def, run.log, s.stepId);
    OneBatch(def, run.log, s.parallelGroupId);
    CountTrace(def, run, p);
    if !run.ending.Completed? {
      RollbacksOfCompensation(def, Plan(def, LogExecuted(run.log)), run.answers);
      CountIgnored(RollbacksTrace(def, Plan(def, LogExecuted(run.log)), run.answers), p, OfCompensation);
    }
    Scale(Attempts(s), if Parallel(s) then Batches(run.log, s.parallelGroupId) else Visits(run.log, s.stepId),
          if Parallel(s) then 1 else 100);
  }

  /** Normal executions in a whole run: at most 100 visits of maxRetries + 1 attempts for a step outside groups, one
      batch of maxRetries + 1 attempts for a member of a group. */
  lemma ExecutionBound(def: Definition, run: Run, s: Step)
    requires WellFormed(def) && s in def.steps && IsRun(def, run)
    ensures Count(Trace(def, run), StartOf(s.stepId)) <=
            (if s.maxRetries < 0 then 0 else s.maxRetries + 1) * if s.parallelGroupId != "" then 1 else 100
  {
    RunAttempts(def, run, s);
    hide Trace, Count, WellFormed, IsRun;
  }

  lemma OneMore(k: nat, a: nat)
    ensures k * (a + 1) == k * a + k && 0 <= k * a
  {
  }

  lemma Scale(k: nat, a: nat, b: nat)
    requires a <= b
    ensures k * a <= k * b
  {
  }

  // ---------------------------------------------------------------- executed steps and the trace

  function IsStarted(): Event -> bool { (e: Event) => e.ActivityStarted? }
  function IsFinished(): Event -> bool { (e: Event) => e.ActivityFinished? }
  function IsRetry(): Event -> bool { (e: Event) => e.ActivityRetry? }
  function IsFailed(): Event -> bool { (e: Event) => e.ActivityFailed? }

  /** The steps a trace says were carried out: finished, or failed with the failure tolerated. */
  function Marks(t: seq<Event>): seq<string> {
    if t == [] then []
    else
      var e := t[|t| - 1];
      Marks(t[..|t| - 1]) + if e.ActivityFinished? || e.ActivityFailed? then [e.stepId] else []
  }

  lemma {:induction false} MarksAppend(t: seq<Event>, u: seq<Event>)
    ensures Marks(t + u) == Marks(t) + Marks(u)
  {
    if u == [] {
      assert t + u == t;
    } else {
      MarksAppend(t, u[..|u| - 1]);
      assert (t + u)[..|t + u| - 1] == t + u[..|u| - 1];
    }
  }

  lemma {:induction false} NoMarks(t: seq<Event>)
    requires forall i :: 0 <= i < |t| ==> !t[i].ActivityFinished? && !t[i].ActivityFailed?
    ensures Marks(t) == []
  {
    if t != [] {
      NoMarks(t[..|t| - 1]);
    }
  }

  lemma {:induction false} MarksCount(t: seq<Event>)
    ensures |Marks(t)| == Count(t, IsFinished()) + Count(t, IsFailed())
  {
    if t != [] {
      MarksCount(t[..|t| - 1]);
    }
  }

  /** Every attempt that started ended, and the executed steps are those the trace marks, in order. */
  ghost predicate Accounts(t: seq<Event>, executed: seq<string>) {
    Count(t, IsStarted()) == Count(t, IsFinished()) + Count(t, IsRetry()) && executed == Marks(t)
  }

  lemma AccountsAppend(t: seq<Event>, x: seq<string>, u: seq<Event>, y: seq<string>)
    requires Accounts(t, x) && Accounts(u, y)
    ensures Accounts(t + u, x + y)
  {
    hide Count, Marks;
    CountAppend(t, u, IsStarted());
    CountAppend(t, u, IsFinished());
    CountAppend(t, u, IsRetry());
    MarksAppend(t, u);
  }

  predicate OfAttempt(e: Event) {
    e.ActivityStarted? || e.ActivityFinished? || e.ActivityRetry? || e.ActivityFailed?
  }

  lemma SilentAccounts(t: seq<Event>)
    requires forall i :: 0 <= i < |t| ==> !OfAttempt(t[i])
    ensures Accounts(t, [])
  {
    CountNone(t, IsStarted());
    CountNone(t, IsFinished());
    CountNone(t, IsRetry());
    NoMarks(t);
  }

  lemma PairAccounts(e: Event, f: Event)
    requires e.ActivityStarted? && (f.ActivityRetry? || f.ActivityFinished?)
    ensures Accounts([e, f], if f.ActivityFinished? then [f.stepId] else [])
  {
    CountTwo(e, f, IsStarted());
    CountTwo(e, f, IsFinished());
    CountTwo(e, f, IsRetry());
    assert [e, f] == [e] + [f];
    MarksAppend([e], [f]);
    NoMarks([e]);
    assert [f][..0] == [] && Marks([]) == [];
  }

  lemma {:induction false} TriesAccount(id: string, k: nat)
    ensures Accounts(Tries(id, k), [])
  {
    hide Accounts;
    if k == 0 {
      SilentAccounts([]);
    } else {
      TriesAccount(id, k - 1);
      PairAccounts(ActivityStarted(id, k), ActivityRetry(id, k));
      AccountsAppend(Tries(id, k - 1), [], [ActivityStarted(id, k), ActivityRetry(id, k)], []);
      var none: seq<string> := [];
      assert none + none == none;
    }
  }

  lemma FailedAccounts(id: string)
    ensures Accounts([ActivityFailed(id)], [id])
  {
    var e := ActivityFailed(id);
    CountOne(e, IsStarted());
    CountOne(e, IsFinished());
    CountOne(e, IsRetry());
    assert [e][..0] == [] && Marks([]) == [];
  }

  lemma RunAccounts(r: StepRun)
    ensures Accounts(RunTrace(r), RunExecuted(r))
  {
    hide Accounts;
    var id := r.step.stepId;
    TriesAccount(id, r.failures);
    assert [] + [id] == [id];
    match r.outcome
    case Skipped => SilentAccounts([ActivitySkipped(id)]);
    case Success =>
      var e, f := ActivityStarted(id, r.failures + 1), ActivityFinished(id, r.failures + 1);
      PairAccounts(e, f);
      AccountsAppend(Tries(id, r.failures), [], [e, f], [id]);
    case ContinuedOnError =>
      FailedAccounts(id);
      AccountsAppend(Tries(id, r.failures), [], [ActivityFailed(id)], [id]);
    case HardFailed =>
  }

  lemma {:induction false} RunsAccount(runs: seq<StepRun>)
    ensures Accounts(RunsTrace(runs), RunsExecuted(runs))
  {
    hide Accounts, RunTrace, RunExecuted;
    if runs == [] {
      SilentAccounts([]);
    } else {
      var n := |runs| - 1;
      RunsAccount(runs[..n]);
      RunAccounts(runs[n]);
      AccountsAppend(RunsTrace(runs[..n]), RunsExecuted(runs[..n]), RunTrace(runs[n]), RunExecuted(runs[n]));
    }
  }

  lemma Framed(head: seq<Event>, t: seq<Event>, x: seq<string>, last: seq<Event>)
    requires Accounts(t, x)
    requires (forall i :: 0 <= i < |head| ==> !OfAttempt(head[i])) && forall i :: 0 <= i < |last| ==>
        !OfAttempt(last[i])
    ensures Accounts(head + t + last, x)
  {
    SilentAccounts(head);
    SilentAccounts(last);
    hide Accounts;
    AccountsAppend(head, [], t, x);
    assert [] + x == x && x + [] == x;
    AccountsAppend(head + t, x, last, []);
  }

  lemma VisitAccounts(v: Visit)
    ensures Accounts(VisitTrace(v), VisitExecuted(v))
  {
    hide Accounts, RunTrace, RunsTrace, RunExecuted, RunsExecuted;
    match v
    case Single(s, paused, r) =>
      RunAccounts(r);
      Framed(PauseTrace(s.stepId, paused), RunTrace(r), RunExecuted(r),
             if Breaks(s, r.outcome) then [BreakConditionMet(s.stepId)] else []);
    case Batch(s, paused, runs) =>
      var group := s.parallelGroupId;
      RunsAccount(runs);
      Framed([BatchStarted(group)] + PauseTrace(group, paused), RunsTrace(runs), RunsExecuted(runs),
             [BatchFinished(group, AnyHardFailed(runs))]);
    case _ =>
      SilentAccounts(VisitTrace(v));
  }

  lemma {:induction false} LogAccounts(log: seq<Visit>)
    ensures Accounts(LogTrace(log), LogExecuted(log))
  {
    hide Accounts, VisitTrace, VisitExecuted;
    if log == [] {
      SilentAccounts([]);
    } else {
      var n := |log| - 1;
      LogAccounts(log[..n]);
      VisitAccounts(log[n]);
      AccountsAppend(LogTrace(log[..n]), LogExecuted(log[..n]), VisitTrace(log[n]), VisitExecuted(log[n]));
    }
  }

  lemma RestSilent(def: Definition, run: Run, rest: seq<Event>)
    requires IsRun(def, run)
    requires rest == ConclusionTrace(def, run.ending) +
                     if run.ending.Completed? then [] else FailureTrace(def, LogExecuted(run.log), run.answers)
    ensures forall i :: 0 <= i < |rest| ==> !OfAttempt(rest[i])
  {
    ConclusionSilent(def, run.ending);
    if !run.ending.Completed? {
      FailureSilent(def, LogExecuted(run.log), run.answers);
    }
    hide ConclusionTrace, FailureTrace, OfAttempt, Plan, LogExecuted, Path, Stuck, Through;
  }

  lemma ConclusionSilent(def: Definition, e: Ending)
    requires e.AnalyzerRefused? ==> e.k < |def.analyzers|
    requires e.ReporterRefused? ==> e.k < |def.reporters|
    ensures forall i :: 0 <= i < |ConclusionTrace(def, e)| ==> !OfAttempt(ConclusionTrace(def, e)[i])
  {
    hide AnalyzersTrace, ReportersTrace;
    var a := def.analyzers[..if e.AnalyzerRefused? then e.k else |def.analyzers|];
    var r := def.reporters[..if e.ReporterRefused? then e.k else |def.reporters|];
    assert e.Completed? ==> r == def.reporters;
    assert !e.AnalyzerRefused? ==> a == def.analyzers;
    AnalyzersOfChecks(a);
    ReportersOfChecks(r);
  }

  lemma FailureSilent(def: Definition, executed: seq<string>, answers: seq<bool>)
    requires |answers| == |Plan(def, executed)|
    ensures forall i :: 0 <= i < |FailureTrace(def, executed, answers)| ==>
      !OfAttempt(FailureTrace(def, executed, answers)[i])
  {
    hide Plan, RollbacksTrace;
    RollbacksOfCompensation(def, Plan(def, executed), answers);
  }

  /** In the trace of every run, started attempts are finished or retried ones, and the executed steps are exactly the
      finished and tolerated ones, in order. */
  lemma RunAccountsFor(def: Definition, run: Run)
    requires IsRun(def, run)
    ensures var t := Trace(def, run);
            Count(t, IsStarted()) == Count(t, IsFinished()) + Count(t, IsRetry()) &&
            LogExecuted(run.log) == Marks(t) &&
            |LogExecuted(run.log)| == Count(t, IsFinished()) + Count(t, IsFailed())
  {
    hide Count, Marks, LogTrace, LogExecuted, ConclusionTrace, FailureTrace, Path, Stuck, Through, Plan;
    var t := LogTrace(run.log);
    var rest := ConclusionTrace(def, run.ending) +
                if run.ending.Completed? then [] else FailureTrace(def, LogExecuted(run.log), run.answers);
    LogAccounts(run.log);
    RestSilent(def, run, rest);
    Framed([WorkflowStarted], t, LogExecuted(run.log), rest);
    assert Trace(def, run) == [WorkflowStarted] + t + rest;
    MarksCount(Trace(def, run));
  }

  // ---------------------------------------------------------------- the compensation plan

  /** The last execution of a step compensated by c, or -1. */
  function LatestUse(def: Definition, executed: seq<string>, c: string): (k: int)
    ensures -1 <= k < |executed|
    ensures k >= 0 ==> CompensationOf(def, executed[k]) == c
    ensures forall i :: k < i < |executed| ==> CompensationOf(def, executed[i]) != c
  {
    if executed == [] then -1
    else if CompensationOf(def, executed[|executed| - 1]) == c then |executed| - 1
    else LatestUse(def, executed[..|executed| - 1], c)
  }

  /** The compensation of a step is the one it names. */
  lemma CompensationMeaning(def: Definition, s: Step)
    requires WellFormed(def) && s in def.steps
    ensures CompensationOf(def, s.stepId) == s.compensationStepId
  {
    var m := Find(def.steps, s.stepId);
    var i :| 0 <= i < |def.steps| && def.steps[i] == s;
    UniqueStep(def, s, m.step);
  }

  predicate Due(def: Definition, executed: seq<string>, r: Rollback) {
    var k := LatestUse(def, executed, r.compensationId);
    r.compensationId != "" && k >= 0 && r.stepId == executed[k]
  }

  predicate NewestFirst(def: Definition, executed: seq<string>, plan: seq<Rollback>) {
    forall i, j :: 0 <= i < j < |plan| ==>
      LatestUse(def, executed, plan[i].compensationId) > LatestUse(def, executed, plan[j].compensationId)
  }

  lemma {:induction false} RemainingMembers(plan: seq<Rollback>, seen: set<string>, r: Rollback)
    ensures r in Remaining(plan, seen) <==> r in plan && r.compensationId !in seen
  {
    if plan != [] {
      var n := |plan| - 1;
      RemainingMembers(plan[..n], seen, r);
      assert plan == plan[..n] + [plan[n]];
    }
  }

  lemma {:induction false} RemainingOrder(def: Definition, executed: seq<string>, plan: seq<Rollback>,
      seen: set<string>)
    requires NewestFirst(def, executed, plan)
    ensures NewestFirst(def, executed, Remaining(plan, seen))
  {
    hide LatestUse;
    if plan != [] {
      var n := |plan| - 1;
      var rest := Remaining(plan[..n], seen);
      RemainingOrder(def, executed, plan[..n], seen);
      forall i | 0 <= i < |rest|
        ensures LatestUse(def, executed, rest[i].compensationId) > LatestUse(def, executed, plan[n].compensationId)
      {
        RemainingMembers(plan[..n], seen, rest[i]);
        assert rest[i] in plan[..n];
        var j :| 0 <= j < n && plan[..n][j] == rest[i];
        assert plan[j] == rest[i];
      }
    }
  }

  /** The plan holds, for every compensation of an executed step, the step that used it last, newest first. */
  lemma {:induction false} PlanMeaning(def: Definition, executed: seq<string>)
    ensures forall r :: r in Plan(def, executed) <==> Due(def, executed, r)
    ensures NewestFirst(def, executed, Plan(def, executed))
  {
    if executed != [] {
      var n := |executed| - 1;
      var earlier := Plan(def, executed[..n]);
      var id := executed[n];
      var c := CompensationOf(def, id);
      PlanMeaning(def, executed[..n]);
      if c == "" {
        assert forall i :: 0 <= i < |earlier| ==> earlier[i] in earlier;
        EarlierOrder(def, executed, earlier);
        forall r ensures r in Plan(def, executed) <==> Due(def, executed, r) {
          EarlierDue(def, executed, r);
        }
      } else {
        RemainingOrder(def, executed[..n], earlier, {c});
        forall r ensures r in Plan(def, executed) <==> Due(def, executed, r) {
          RemainingMembers(earlier, {c}, r);
          EarlierDue(def, executed, r);
        }
        LatestFirst(def, executed, earlier);
      }
    }
  }

  lemma EarlierDue(def: Definition, executed: seq<string>, r: Rollback)
    requires executed != []
    ensures var n := |executed| - 1;
            Due(def, executed, r) <==>
              if r.compensationId == CompensationOf(def, executed[n])
              then r.compensationId != "" && r.stepId == executed[n] else Due(def, executed[..n], r)
  {
  }

  lemma EarlierOrder(def: Definition, executed: seq<string>, plan: seq<Rollback>)
    requires executed != [] && NewestFirst(def, executed[..|executed| - 1], plan)
    requires forall i :: 0 <= i < |plan| ==> plan[i].compensationId != CompensationOf(def, executed[|executed| - 1])
    ensures NewestFirst(def, executed, plan)
  {
  }

  lemma LatestFirst(def: Definition, executed: seq<string>, earlier: seq<Rollback>)
    requires executed != []
    requires var c := CompensationOf(def, executed[|executed| - 1]);
             NewestFirst(def, executed[..|executed| - 1], Remaining(earlier, {c}))
    ensures var id := executed[|executed| - 1];
            var c := CompensationOf(def, id);
            NewestFirst(def, executed, [Rollback(id, c)] + Remaining(earlier, {c}))
  {
    var c := CompensationOf(def, executed[|executed| - 1]);
    var rest := Remaining(earlier, {c});
    forall i | 0 <= i < |rest| ensures rest[i].compensationId != c {
      RemainingMembers(earlier, {c}, rest[i]);
    }
    EarlierOrder(def, executed, rest);
    var plan := [Rollback(executed[|executed| - 1], c)] + rest;
    forall i, j | 0 <= i < j < |plan|
      ensures LatestUse(def, executed, plan[i].compensationId) > LatestUse(def, executed, plan[j].compensationId)
    {
      assert plan[j] == rest[j - 1];
      if i > 0 {
        assert plan[i] == rest[i - 1];
      }
    }
  }

  /** The end of an attempted compensation by c, whatever came of it. */
  function RolledBack(c: string): Event -> bool {
    (e: Event) => (e.CompensationFinished? || e.CompensationFailed?) && e.compensationId == c
  }

  predicate Compensates(plan: seq<Rollback>, c: string) {
    exists i :: 0 <= i < |plan| && plan[i].compensationId == c
  }

  predicate Separate(plan: seq<Rollback>) {
    forall i, j :: 0 <= i < j < |plan| ==> plan[i].compensationId != plan[j].compensationId
  }

  lemma RollbackCount(def: Definition, r: Rollback, ok: bool, c: string)
    ensures Count(RollbackTrace(def, r, ok), RolledBack(c)) == if r.compensationId == c then 1 else 0
  {
    var t := RollbackTrace(def, r, ok);
    if |t| == 1 {
      CountOne(t[0], RolledBack(c));
    } else {
      CountTwo(t[0], t[1], RolledBack(c));
    }
  }

  lemma {:induction false} RollbacksCount(def: Definition, plan: seq<Rollback>, answers: seq<bool>, c: string)
    requires |answers| == |plan| && Separate(plan)
    ensures Count(RollbacksTrace(def, plan, answers), RolledBack(c)) == if Compensates(plan, c) then 1 else 0
  {
    hide Count, RollbackTrace;
    if plan == [] {
      CountNone([], RolledBack(c));
    } else {
      var n := |plan| - 1;
      RollbacksCount(def, plan[..n], answers[..n], c);
      RollbackCount(def, plan[n], answers[n], c);
      CountAppend(RollbacksTrace(def, plan[..n], answers[..n]), RollbackTrace(def, plan[n], answers[n]), RolledBack(c));
      CompensatesLast(plan, c);
    }
  }

  lemma CompensatesLast(plan: seq<Rollback>, c: string)
    requires plan != []
    ensures var n := |plan| - 1; Compensates(plan, c) <==> Compensates(plan[..n], c) || plan[n].compensationId == c
  {
    var n := |plan| - 1;
    if Compensates(plan[..n], c) {
      var i :| 0 <= i < n && plan[..n][i].compensationId == c;
      assert plan[i].compensationId == c;
    }
    if Compensates(plan, c) && plan[n].compensationId != c {
      var i :| 0 <= i < |plan| && plan[i].compensationId == c;
      assert plan[..n][i].compensationId == c;
    }
  }

  /** A compensation is started, and then finished or failed, exactly when it names a step whose plugin is loaded; it
      fails at once otherwise. */
  lemma RollbackEvents(def: Definition, r: Rollback, ok: bool)
    requires WellFormed(def)
    ensures RollbackTrace(def, r, ok) ==
      if exists s :: s in def.steps && s.stepId == r.compensationId && s.pluginId in def.loaded then
        [CompensationStarted(r.stepId, r.compensationId),
         if ok then CompensationFinished(r.stepId, r.compensationId)
         else CompensationFailed(r.stepId, r.compensationId)]
      else [CompensationFailed(r.stepId, r.compensationId)]
  {
    var m := Find(def.steps, r.compensationId);
    hide Find, Known;
    if s :| s in def.steps && s.stepId == r.compensationId {
      var i :| 0 <= i < |def.steps| && def.steps[i] == s;
      UniqueStep(def, s, m.step);
    }
  }

  predicate Used(def: Definition, executed: seq<string>, c: string) {
    exists i :: 0 <= i < |executed| && CompensationOf(def, executed[i]) == c
  }

  lemma PlanCovers(def: Definition, executed: seq<string>, c: string)
    ensures Separate(Plan(def, executed))
    ensures Compensates(Plan(def, executed), c) <==> c != "" && Used(def, executed, c)
  {
    var plan := Plan(def, executed);
    PlanMeaning(def, executed);
    var k := LatestUse(def, executed, c);
    if Compensates(plan, c) {
      var i :| 0 <= i < |plan| && plan[i].compensationId == c;
      assert plan[i] in plan;
      assert Due(def, executed, plan[i]);
    }
    if c != "" && k >= 0 {
      var r := Rollback(executed[k], c);
      assert Due(def, executed, r);
      var i :| 0 <= i < |plan| && plan[i] == r;
    }
  }

  /** On a failing run every compensation of a step the trace marks as carried out is attempted exactly once, and no
      other: a step whose every execution hard-failed or was skipped is not compensated. A completed run compensates
      nothing. */
  lemma CompensatedOnce(def: Definition, run: Run, c: string)
    requires IsRun(def, run)
    ensures Count(Trace(def, run), RolledBack(c)) ==
            if !run.ending.Completed? && c != "" && Used(def, Marks(Trace(def, run)), c) then 1 else 0
  {
    hide Count, Marks, LogTrace, LogExecuted, ConclusionTrace, FailureTrace, Path, Stuck, Through, Plan, RollbacksTrace;
    hide Compensates, Used, Separate;
    CountTrace(def, run, RolledBack(c));
    LogOfLoop(run.log);
    CountIgnored(LogTrace(run.log), RolledBack(c), OfLoop);
    RunAccountsFor(def, run);
    if !run.ending.Completed? {
      PlanCovers(def, LogExecuted(run.log), c);
      RollbacksCount(def, Plan(def, LogExecuted(run.log)), run.answers, c);
    }
  }

  // ---------------------------------------------------------------- failures

  /** Where the loop goes after a step outside groups: out of it when a break condition is met, else to the step named
      for the outcome, which must exist unless none is named; a hard failure without such a step fails. */
  lemma SingleRoutes(def: Definition, v: Visit)
    requires v.Single?
    ensures var s, o := v.step, v.run.outcome;
      && (o == HardFailed && (s.breakOnError || s.breakOnFail) ==> RouteAfter(def, v) == To(""))
      && (o == ContinuedOnError && s.breakOnFail ==> RouteAfter(def, v) == To(""))
      && (o == HardFailed && !s.breakOnError && !s.breakOnFail && s.onFailure == "" ==> RouteAfter(def, v) == Failing)
      && (o == HardFailed && !s.breakOnError && !s.breakOnFail && s.onFailure != "" ==>
            LeadsTo(def, RouteAfter(def, v), s.onFailure))
      && (o == Success || (o == ContinuedOnError && !s.breakOnFail) ==> LeadsTo(def, RouteAfter(def, v), s.onSuccess))
      && (o == Skipped && s.onSkipped != "" ==> LeadsTo(def, RouteAfter(def, v), s.onSkipped))
      && (o == Skipped && s.onSkipped == "" ==> LeadsTo(def, RouteAfter(def, v), s.onSuccess))
  {
  }

  /** The route is to the step named, or out of the loop when none is named, and fails when there is no such step. */
  ghost predicate LeadsTo(def: Definition, r: Route, id: string) {
    r == if id == "" || exists s :: s in def.steps && s.stepId == id then To(id) else Failing
  }

  /** Where the loop goes after a parallel group, and after what the user decides. */
  lemma OtherRoutes(def: Definition, v: Visit)
    requires !v.Single?
    ensures v.UserAbort? || v.BatchAbort? ==> RouteAfter(def, v) == Failing
    ensures v.UserSkip? || v.BatchSkip? ==>
      RouteAfter(def, v) == To(if v.step.onSkipped != "" then v.step.onSkipped else v.step.onSuccess)
    ensures v.BatchAgain? ==> LeadsTo(def, RouteAfter(def, v), v.step.onSuccess)
    ensures v.Batch? && (forall r :: r in v.runs ==> r.outcome != HardFailed) ==>
              LeadsTo(def, RouteAfter(def, v), v.step.onSuccess)
    ensures v.Batch? && (exists r :: r in v.runs && r.outcome == HardFailed) ==>
              if v.step.onFailure == "" then RouteAfter(def, v) == Failing
              else LeadsTo(def, RouteAfter(def, v), v.step.onFailure)
  {
  }

  predicate HardFailure(v: Visit) {
    match v
    case Single(_, _, r) => r.outcome == HardFailed
    case Batch(_, _, runs) => AnyHardFailed(runs)
    case _ => false
  }

  predicate Broke(v: Visit) {
    v.Single? && Breaks(v.step, v.run.outcome)
  }

  lemma HardRoute(def: Definition, v: Visit)
    requires HardFailure(v)
    ensures RouteAfter(def, v) == if Broke(v) then To("") else FailureRoute(def, v.step)
  {
  }

  lemma Followed(def: Definition, log: seq<Visit>, i: nat)
    requires WellFormed(def) && Path(def, log) && i + 1 < |log|
    ensures RouteAfter(def, log[i]) == To(log[i + 1].step.stepId) && log[i + 1].step.stepId != ""
  {
    hide RouteAfter, Allowed, Refused, Path;
    NextAt(def, log, i + 1);
    assert log[..i + 1][i] == log[i];
    assert log[i + 1].step in def.steps;
  }

  /** When the loop does not fail, a hard failure was either the last visit, ended by its break condition, or was
      followed by the step named for its failure. */
  lemma HardFailureHandled(def: Definition, log: seq<Visit>, i: nat)
    requires WellFormed(def) && Path(def, log) && Through(def, log)
    requires i < |log| && HardFailure(log[i])
    ensures if Broke(log[i]) then i == |log| - 1
            else log[i].step.onFailure != "" && i + 1 < |log| && log[i + 1].step.stepId == log[i].step.onFailure
  {
    hide HardFailure, Broke, RouteAfter, Path, WellFormed, Known;
    HardRoute(def, log[i]);
    if i + 1 < |log| {
      Followed(def, log, i);
    }
  }

  /** A run whose last visit hard-failed gets past the loop exactly when that visit met its break condition. */
  lemma BreakFinishesIff(def: Definition, run: Run)
    requires IsRun(def, run) && run.log != [] && HardFailure(run.log[|run.log| - 1])
    ensures !run.ending.LoopFailed? <==> Broke(run.log[|run.log| - 1])
  {
    hide Path, HardFailure, Broke, RouteAfter, Plan, LogExecuted, Known;
    HardRoute(def, run.log[|run.log| - 1]);
  }

  /** The loop is about to visit a step that does not exist. */
  predicate MeetsMissing(def: Definition, log: seq<Visit>) {
    var r := After(def, log);
    r.To? && r.id != "" && !Known(def, r.id)
  }

  /** That happens exactly after a user's skip of a step whose skip target does not exist: every other transition is
      checked. */
  lemma MissingIffUserSkip(def: Definition, log: seq<Visit>)
    requires WellFormed(def) && Path(def, log)
    ensures MeetsMissing(def, log) <==>
            log != [] &&
            var v := log[|log| - 1];
            (v.UserSkip? || v.BatchSkip?) && SkipTarget(v.step) != "" && !Known(def, SkipTarget(v.step))
  {
    hide Path, Breaks, AnyHardFailed;
    if log != [] {
      SkipsUnchecked(def, log[|log| - 1]);
    }
  }

  lemma SkipsUnchecked(def: Definition, v: Visit)
    ensures if v.UserSkip? || v.BatchSkip? then RouteAfter(def, v) == To(SkipTarget(v.step))
            else RouteAfter(def, v).To? ==> RouteAfter(def, v).id == "" || Known(def, RouteAfter(def, v).id)
  {
  }

  const ONLY := Step("a", "p", "", 0, false, "", "", "", "", "", "z", false, false)
  const SKIPPING := Definition("", [ONLY], {"p"}, [], [])

  /** A user skips a step whose skip target does not exist; the same step skipped by its condition is checked. */
  lemma SkipToMissing()
    ensures WellFormed(SKIPPING) && Path(SKIPPING, [UserSkip(ONLY, false)])
    ensures MeetsMissing(SKIPPING, [UserSkip(ONLY, false)]) && Stuck(SKIPPING, [UserSkip(ONLY, false)])
    ensures RouteAfter(SKIPPING, Single(ONLY, false, StepRun(ONLY, Skipped, 0))) == Failing
  {
    assert SKIPPING.steps[0] == ONLY;
    assert Known(SKIPPING, "a");
    OnePath(SKIPPING, UserSkip(ONLY, false));
  }

  const FIRST := Step("a", "p", "", 0, false, "", "", "c", "b", "", "", false, false)
  const SECOND := Step("b", "p", "", 0, false, "", "", "", "", "", "", false, true)
  const BACK := Step("c", "p", "", 0, false, "", "", "", "", "", "", false, false)
  const BREAKING := Definition("", [FIRST, SECOND, BACK], {"p"}, [], [])
  const CARRIED_OUT := Single(FIRST, false, StepRun(FIRST, Success, 0))
  const HARD_FAILED := Single(SECOND, false, StepRun(SECOND, HardFailed, 1))

  lemma BreakingIsWellFormed()
    ensures WellFormed(BREAKING) && Known(BREAKING, "a") && Known(BREAKING, "b")
  {
    assert BREAKING.steps[0] == FIRST && BREAKING.steps[1] == SECOND && BREAKING.steps[2] == BACK;
  }

  lemma BreakingPath()
    ensures Path(BREAKING, [CARRIED_OUT, HARD_FAILED])
  {
    hide Known, WellFormed;
    BreakingIsWellFormed();
    var v, w := CARRIED_OUT, HARD_FAILED;
    assert BREAKING.steps[0] == FIRST && BREAKING.steps[1] == SECOND;
    assert Next(BREAKING, [], v);
    OnePath(BREAKING, v);
    OneVisit(v);
    assert Next(BREAKING, [v], w);
    assert [v, w][..1] == [v];
  }

  /** A hard failure that meets its break condition ends the workflow as finished, with nothing compensated: here the
      first step is carried out and names a compensation, the second hard-fails. */
  lemma BreakConditionFinishes() returns (run: Run)
    ensures WellFormed(BREAKING) && IsRun(BREAKING, run) && run.ending.Completed?
    ensures HardFailure(run.log[|run.log| - 1])
    ensures Plan(BREAKING, LogExecuted(run.log)) == [Rollback("a", "c")]
  {
    hide Path, Plan, WellFormed, Find;
    var v, w := CARRIED_OUT, HARD_FAILED;
    run := Run([v, w], Completed, []);
    BreakingIsWellFormed();
    BreakingPath();
    assert [v, w][..1] == [v];
    OneVisit(v);
    assert LogExecuted([v, w]) == ["a"];
    SmallPlan(BREAKING);
  }

  const DONE := Step("a", "p", "", 0, false, "", "", "c", "", "", "", false, false)
  const AUDITED := Definition("", [DONE, SECOND, BACK], {"p"}, ["x"], [])
  const AUDITED_RUN := Run([Single(DONE, false, StepRun(DONE, Success, 0))], AnalyzerRefused(0), [true])

  /** When the analyzer refuses, the leases are released before the compensation runs, and again after it. */
  lemma RefusedAfterRelease()
    ensures WellFormed(AUDITED) && IsRun(AUDITED, AUDITED_RUN)
    ensures Trace(AUDITED, AUDITED_RUN) ==
      [WorkflowStarted] + [ActivityStarted("a", 1), ActivityFinished("a", 1)] +
      [LeasesReleased, PluginsNotified, VerdictPublished, AnalyzerStarted("x"), AnalyzerFailed("x")] +
      [WorkflowFailed, CompensationStarted("a", "c"), CompensationFinished("a", "c"), LeasesReleased, PluginsNotified]
  {
    AuditedRun();
    AuditedTraces();
    AuditedFailure();
    hide IsRun, WellFormed, Plan, Find, LogTrace, LogExecuted, ConclusionTrace, FailureTrace;
    assert LogExecuted(AUDITED_RUN.log) == ["a"];
  }

  lemma AuditedFailure()
    requires Plan(AUDITED, ["a"]) == [Rollback("a", "c")]
    requires RollbacksTrace(AUDITED, [Rollback("a", "c")], [true]) ==
      [CompensationStarted("a", "c"), CompensationFinished("a", "c")]
    ensures FailureTrace(AUDITED, ["a"], [true]) ==
      [WorkflowFailed, CompensationStarted("a", "c"), CompensationFinished("a", "c"), LeasesReleased, PluginsNotified]
  {
    hide Plan, RollbacksTrace;
  }

  lemma AuditedTraces()
    requires Find(AUDITED.steps, "c") == AStep(BACK)
    ensures LogTrace(AUDITED_RUN.log) == [ActivityStarted("a", 1), ActivityFinished("a", 1)]
    ensures ConclusionTrace(AUDITED, AnalyzerRefused(0)) ==
      [LeasesReleased, PluginsNotified, VerdictPublished, AnalyzerStarted("x"), AnalyzerFailed("x")]
    ensures RollbacksTrace(AUDITED, [Rollback("a", "c")], [true]) ==
      [CompensationStarted("a", "c"), CompensationFinished("a", "c")]
  {
    hide Find;
    var v := AUDITED_RUN.log[0];
    assert LogTrace([v]) == VisitTrace(v) by { assert [v][..0] == [] && LogTrace([]) == []; }
    assert AUDITED.analyzers[..0] == [] && AnalyzersTrace([]) == [];
    assert [true][..0] == [] && [Rollback("a", "c")][..0] == [];
  }

  lemma AuditedRun()
    ensures WellFormed(AUDITED) && IsRun(AUDITED, AUDITED_RUN) && Find(AUDITED.steps, "c") == AStep(BACK)
    ensures LogExecuted(AUDITED_RUN.log) == ["a"] && Plan(AUDITED, ["a"]) == [Rollback("a", "c")]
  {
    AuditedIsWellFormed();
    AuditedPath();
    OneVisit(AUDITED_RUN.log[0]);
    hide Path, Plan, WellFormed, LogExecuted;
    assert Find(AUDITED.steps, "c") == AStep(BACK) by { assert AUDITED.steps[2] == BACK; }
    SmallPlan(AUDITED);
  }

  lemma AuditedIsWellFormed()
    ensures WellFormed(AUDITED) && Known(AUDITED, "a")
  {
    assert AUDITED.steps[0] == DONE && AUDITED.steps[1] == SECOND && AUDITED.steps[2] == BACK;
  }

  lemma AuditedPath()
    ensures Path(AUDITED, AUDITED_RUN.log)
  {
    hide Known, WellFormed;
    AuditedIsWellFormed();
    assert AUDITED.steps[0] == DONE;
    assert Next(AUDITED, [], AUDITED_RUN.log[0]);
    OnePath(AUDITED, AUDITED_RUN.log[0]);
  }

  lemma OneVisit(v: Visit)
    ensures LogExecuted([v]) == VisitExecuted(v)
    ensures forall id :: Visits([v], id) == if v.step.stepId == id then 1 else 0
  {
    assert [v][..0] == [] && LogExecuted([]) == [];
    assert forall id :: Visits([], id) == 0;
  }

  lemma OnePath(def: Definition, v: Visit)
    requires Next(def, [], v)
    ensures Path(def, [v])
  {
    assert [v][..0] == [] && Path(def, []);
  }

  lemma SmallPlan(def: Definition)
    requires |def.steps| == 3 && def.steps[0].stepId == "a" && def.steps[1].stepId == "b" && def.steps[2].stepId == "c"
    requires def.steps[0].compensationStepId == "c"
    ensures Plan(def, ["a"]) == [Rollback("a", "c")]
  {
    assert ["a"][..0] == [] && Plan(def, []) == [] && Remaining([], {"c"}) == [];
    FindFirst(def.steps);
  }

  lemma FindFirst(steps: seq<Step>)
    requires |steps| == 3 && steps[0].stepId == "a" && steps[1].stepId == "b" && steps[2].stepId == "c"
    ensures Find(steps, "a") == AStep(steps[0])
  {
    assert steps[..2][..1][..1] == [steps[0]];
    assert steps[..2][..1] == steps[..1];
  }
}
