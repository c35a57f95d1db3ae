/** Runs of a workflow: what the interpreter of step graphs may do, visit by visit, and what it publishes.
    A run is a log of visits; the outside world (plugins, users, analyzers, reporters) decides what each visit
    does, the step graph decides where the next visit goes. */
module Workflow {

  datatype Step = Step(
    stepId: string,
    pluginId: string,
    parallelGroupId: string,
    maxRetries: int,
    continueOnError: bool,
    conditionKey: string,
    conditionEquals: string,
    compensationStepId: string,
    onSuccess: string,
    onFailure: string,
    onSkipped: string,
    breakOnFail: bool,
    breakOnError: bool)

  datatype Definition = Definition(
    entryStepId: string,
    steps: seq<Step>,
    loaded: set<string>,
    analyzers: seq<string>,
    reporters: seq<string>)

  /** What is published on the event bus, with two marks for the clean-up actions. */
  datatype Event =
    | WorkflowStarted
    | WorkflowFinished
    | WorkflowFailed
    | Paused(place: string)
    | Resumed(place: string)
    | BreakConditionMet(stepId: string)
    | ActivitySkipped(stepId: string)
    | ActivityStarted(stepId: string, attempt: nat)
    | ActivityFinished(stepId: string, attempt: nat)
    | ActivityRetry(stepId: string, attempt: nat)
    | ActivityFailed(stepId: string)
    | BatchStarted(group: string)
    | BatchSkipped(group: string)
    | BatchFinished(group: string, failed: bool)
    | CompensationStarted(stepId: string, compensationId: string)
    | CompensationFinished(stepId: string, compensationId: string)
    | CompensationFailed(stepId: string, compensationId: string)
    | LeasesReleased
    | PluginsNotified
    | VerdictPublished
    | AnalyzerStarted(id: string)
    | AnalyzerFinished(id: string)
    | AnalyzerFailed(id: string)
    | ReporterStarted(id: string)
    | ReporterFinished(id: string)

  const MAX_TRANSITIONS := 1024
  const MAX_VISITS := 100

  // ---------------------------------------------------------------- definitions

  predicate Known(def: Definition, id: string) {
    exists i :: 0 <= i < |def.steps| && def.steps[i].stepId == id
  }

  function Entry(def: Definition): string {
    if def.entryStepId == "" && def.steps != [] then def.steps[0].stepId else def.entryStepId
  }

  /** Definitions the engine starts to execute. */
  predicate WellFormed(def: Definition) {
    def.steps != [] &&
    (forall i :: 0 <= i < |def.steps| ==> def.steps[i].stepId != "") &&
    (forall i, j :: 0 <= i < j < |def.steps| ==> def.steps[i].stepId != def.steps[j].stepId) &&
    Known(def, Entry(def))
  }

  lemma UniqueStep(def: Definition, s: Step, t: Step)
    requires WellFormed(def) && s in def.steps && t in def.steps && s.stepId == t.stepId
    ensures s == t
  {
    var i :| 0 <= i < |def.steps| && def.steps[i] == s;
    var j :| 0 <= j < |def.steps| && def.steps[j] == t;
  }

  // ---------------------------------------------------------------- one execution of a step

  datatype Outcome = Success | Skipped | ContinuedOnError | HardFailed

  /** One call of runStep, with the number of attempts that failed. */
  datatype StepRun = StepRun(step: Step, outcome: Outcome, failures: nat)

  function Attempts(s: Step): nat {
    if s.maxRetries < 0 then 0 else s.maxRetries + 1
  }

  predicate Runnable(def: Definition, s: Step) {
    s.pluginId != "" && s.pluginId in def.loaded
  }

  predicate Possible(def: Definition, r: StepRun) {
    match r.outcome
    case Skipped => r.step.conditionKey != "" && r.failures == 0
    case Success => Runnable(def, r.step) && r.failures < Attempts(r.step)
    case ContinuedOnError => Runnable(def, r.step) && r.step.continueOnError && r.failures == Attempts(r.step)
    case HardFailed =>
      if Runnable(def, r.step) then !r.step.continueOnError && r.failures == Attempts(r.step) else r.failures == 0
  }

  function Tries(id: string, k: nat): seq<Event> {
    if k == 0 then [] else Tries(id, k - 1) + [ActivityStarted(id, k), ActivityRetry(id, k)]
  }

  function RunTrace(r: StepRun): seq<Event> {
    var id := r.step.stepId;
    match r.outcome
    case Skipped => [ActivitySkipped(id)]
    case Success => Tries(id, r.failures) + [ActivityStarted(id, r.failures + 1), ActivityFinished(id, r.failures + 1)]
    case ContinuedOnError => Tries(id, r.failures) + [ActivityFailed(id)]
    case HardFailed => Tries(id, r.failures)
  }

  /** What the run adds to the executed steps. */
  function RunExecuted(r: StepRun): seq<string> {
    if r.outcome == Success || r.outcome == ContinuedOnError then [r.step.stepId] else []
  }

  function RunsTrace(runs: seq<StepRun>): seq<Event> {
    if runs == [] then [] else RunsTrace(runs[..|runs| - 1]) + RunTrace(runs[|runs| - 1])
  }

  function RunsExecuted(runs: seq<StepRun>): seq<string> {
    if runs == [] then [] else RunsExecuted(runs[..|runs| - 1]) + RunExecuted(runs[|runs| - 1])
  }

  predicate AnyHardFailed(runs: seq<StepRun>) {
    exists i :: 0 <= i < |runs| && runs[i].outcome == HardFailed
  }

  /** The runs of a batch: every member of the group once, in any order. */
  predicate EachOnce(def: Definition, group: string, runs: seq<StepRun>) {
    (forall i, j :: 0 <= i < j < |runs| ==> runs[i].step.stepId != runs[j].step.stepId) &&
    (forall i :: 0 <= i < |runs| ==> runs[i].step in def.steps && runs[i].step.parallelGroupId == group) &&
    (forall s :: s in def.steps && s.parallelGroupId == group ==> Ran(runs, s))
  }

  predicate Ran(runs: seq<StepRun>, s: Step) {
    exists i :: 0 <= i < |runs| && runs[i].step == s
  }

  // ---------------------------------------------------------------- visits

  /** One accepted transition of the main loop. paused tells whether the user paused before it. */
  datatype Visit =
    | Single(step: Step, paused: bool, run: StepRun)
    | UserSkip(step: Step, paused: bool)
    | UserAbort(step: Step, paused: bool)
    | Batch(step: Step, paused: bool, runs: seq<StepRun>)
    | BatchSkip(step: Step, paused: bool)
    | BatchAbort(step: Step, paused: bool)
    | BatchAgain(step: Step)

  predicate Parallel(s: Step) { s.parallelGroupId != "" }

  predicate Breaks(s: Step, o: Outcome) {
    (o == HardFailed && s.breakOnError) || ((o == ContinuedOnError || o == HardFailed) && s.breakOnFail)
  }

  function PauseTrace(place: string, paused: bool): seq<Event> {
    if paused then [Paused(place), Resumed(place)] else []
  }

  function VisitTrace(v: Visit): seq<Event> {
    var id, group := v.step.stepId, v.step.parallelGroupId;
    match v
    case Single(s, paused, r) =>
      PauseTrace(id, paused) + RunTrace(r) + (if Breaks(s, r.outcome) then [BreakConditionMet(id)] else [])
    case UserSkip(_, paused) => (if paused then [Paused(id)] else []) + [ActivitySkipped(id)]
    case UserAbort(_, paused) => if paused then [Paused(id)] else []
    case Batch(_, paused, runs) =>
      [BatchStarted(group)] + PauseTrace(group, paused) + RunsTrace(runs) + [BatchFinished(group, AnyHardFailed(runs))]
    case BatchSkip(_, paused) => [BatchStarted(group)] + (if paused then [Paused(group)] else [BatchSkipped(group)])
    case BatchAbort(_, paused) => [BatchStarted(group)] + (if paused then [Paused(group)] else [])
    case BatchAgain(_) => []
  }

  function VisitExecuted(v: Visit): seq<string> {
    match v
    case Single(_, _, r) => RunExecuted(r)
    case Batch(_, _, runs) => RunsExecuted(runs)
    case _ => []
  }

  function LogTrace(log: seq<Visit>): seq<Event> {
    if log == [] then [] else LogTrace(log[..|log| - 1]) + VisitTrace(log[|log| - 1])
  }

  function LogExecuted(log: seq<Visit>): seq<string> {
    if log == [] then [] else LogExecuted(log[..|log| - 1]) + VisitExecuted(log[|log| - 1])
  }

  /** Where the loop goes: to a step, out of the loop (the empty id), or it fails. */
  datatype Route = To(id: string) | Failing

  function Checked(def: Definition, id: string): Route {
    if id == "" || Known(def, id) then To(id) else Failing
  }

  function SkipTarget(s: Step): string {
    if s.onSkipped != "" then s.onSkipped else s.onSuccess
  }

  function FailureRoute(def: Definition, s: Step): Route {
    if s.onFailure == "" then Failing else Checked(def, s.onFailure)
  }

  function RouteAfter(def: Definition, v: Visit): Route {
    match v
    case Single(s, _, r) =>
      if Breaks(s, r.outcome) then To("")
      else if r.outcome == HardFailed then FailureRoute(def, s)
      else if r.outcome == Skipped then Checked(def, SkipTarget(s))
      else Checked(def, s.onSuccess)
    case UserSkip(s, _) => To(SkipTarget(s))
    case UserAbort(_, _) => Failing
    case Batch(s, _, runs) => if AnyHardFailed(runs) then FailureRoute(def, s) else Checked(def, s.onSuccess)
    case BatchSkip(s, _) => To(SkipTarget(s))
    case BatchAbort(_, _) => Failing
    case BatchAgain(s) => Checked(def, s.onSuccess)
  }

  function After(def: Definition, log: seq<Visit>): Route {
    if log == [] then To(Entry(def)) else RouteAfter(def, log[|log| - 1])
  }

  function Visits(log: seq<Visit>, id: string): nat {
    if log == [] then 0 else Visits(log[..|log| - 1], id) + if log[|log| - 1].step.stepId == id then 1 else 0
  }

  predicate OpensBatch(v: Visit, group: string) {
    (v.Batch? || v.BatchSkip? || v.BatchAbort?) && v.step.parallelGroupId == group
  }

  predicate Processed(log: seq<Visit>, group: string) {
    exists i :: 0 <= i < |log| && OpensBatch(log[i], group)
  }

  /** What a visit may be, after log, apart from where it happens. */
  predicate Allowed(def: Definition, log: seq<Visit>, v: Visit) {
    match v
    case Single(s, _, r) => !Parallel(s) && r.step == s && Possible(def, r)
    case UserSkip(s, _) => !Parallel(s)
    case UserAbort(s, _) => !Parallel(s)
    case Batch(s, _, runs) =>
      Parallel(s) && !Processed(log, s.parallelGroupId) && EachOnce(def, s.parallelGroupId, runs) &&
      forall i :: 0 <= i < |runs| ==> Possible(def, runs[i])
    case BatchSkip(s, _) => Parallel(s) && !Processed(log, s.parallelGroupId)
    case BatchAbort(s, _) => Parallel(s) && !Processed(log, s.parallelGroupId)
    case BatchAgain(s) => Parallel(s) && Processed(log, s.parallelGroupId)
  }

  /** The loop gives up before visiting id: too many transitions, no such step, or too many visits of it. */
  predicate Refused(def: Definition, log: seq<Visit>, id: string) {
    |log| >= MAX_TRANSITIONS || !Known(def, id) || Visits(log, id) >= MAX_VISITS
  }

  /** Visit v may come next. */
  predicate Next(def: Definition, log: seq<Visit>, v: Visit) {
    v.step in def.steps && After(def, log) == To(v.step.stepId) && !Refused(def, log, v.step.stepId) &&
    Allowed(def, log, v)
  }

  predicate Path(def: Definition, log: seq<Visit>) {
    log == [] || (Path(def, log[..|log| - 1]) && Next(def, log[..|log| - 1], log[|log| - 1]))
  }

  /** The loop ends here with a failure. */
  predicate Stuck(def: Definition, log: seq<Visit>) {
    match After(def, log)
    case Failing => true
    case To(id) => id != "" && Refused(def, log, id)
  }

  predicate Through(def: Definition, log: seq<Visit>) {
    After(def, log) == To("")
  }

  // ---------------------------------------------------------------- compensation

  datatype MaybeStep = NoStep | AStep(step: Step)

  function Find(steps: seq<Step>, id: string): (m: MaybeStep)
    ensures m.AStep? ==> m.step in steps && m.step.stepId == id
    ensures m.NoStep? ==> forall i :: 0 <= i < |steps| ==> steps[i].stepId != id
  {
    if steps == [] then NoStep
    else if steps[|steps| - 1].stepId == id then AStep(steps[|steps| - 1])
    else Find(steps[..|steps| - 1], id)
  }

  /** The compensation id of an executed step, empty if it has none. */
  function CompensationOf(def: Definition, id: string): string {
    var m := Find(def.steps, id);
    if m.NoStep? then "" else m.step.compensationStepId
  }

  datatype Rollback = Rollback(stepId: string, compensationId: string)

  function Remaining(plan: seq<Rollback>, seen: set<string>): seq<Rollback> {
    if plan == [] then []
    else
      var rest := Remaining(plan[..|plan| - 1], seen);
      if plan[|plan| - 1].compensationId in seen then rest else rest + [plan[|plan| - 1]]
  }

  /** The compensations due for the executed steps: the newest step first, every compensation once. */
  function Plan(def: Definition, executed: seq<string>): seq<Rollback> {
    if executed == [] then []
    else
      var id := executed[|executed| - 1];
      var c := CompensationOf(def, id);
      var earlier := Plan(def, executed[..|executed| - 1]);
      if c == "" then earlier else [Rollback(id, c)] + Remaining(earlier, {c})
  }

  function RollbackTrace(def: Definition, r: Rollback, ok: bool): seq<Event> {
    var m := Find(def.steps, r.compensationId);
    if m.NoStep? || m.step.pluginId !in def.loaded then [CompensationFailed(r.stepId, r.compensationId)]
    else
      [CompensationStarted(r.stepId, r.compensationId),
       if ok then CompensationFinished(r.stepId, r.compensationId) else CompensationFailed(r.stepId, r.compensationId)]
  }

  function RollbacksTrace(def: Definition, plan: seq<Rollback>, answers: seq<bool>): seq<Event>
    requires |answers| == |plan|
  {
    if plan == [] then []
    else
      var n := |plan| - 1;
      RollbacksTrace(def, plan[..n], answers[..n]) + RollbackTrace(def, plan[n], answers[n])
  }

  // ---------------------------------------------------------------- whole runs

  datatype Ending =
    | LoopFailed
    | AnalyzerRefused(k: nat)
    | ReporterRefused(k: nat)
    | Completed

  /** Everything the outside world decided: the visits, how the run ended, which compensations succeeded. */
  datatype Run = Run(log: seq<Visit>, ending: Ending, answers: seq<bool>)

  function AnalyzersTrace(ids: seq<string>): seq<Event> {
    if ids == [] then []
    else AnalyzersTrace(ids[..|ids| - 1]) + [AnalyzerStarted(ids[|ids| - 1]), AnalyzerFinished(ids[|ids| - 1])]
  }

  function ReportersTrace(ids: seq<string>): seq<Event> {
    if ids == [] then []
    else ReportersTrace(ids[..|ids| - 1]) + [ReporterStarted(ids[|ids| - 1]), ReporterFinished(ids[|ids| - 1])]
  }

  /** Analyzers, and reporters after them, up to the one that refused. */
  function ConclusionTrace(def: Definition, e: Ending): seq<Event>
    requires e.AnalyzerRefused? ==> e.k < |def.analyzers|
    requires e.ReporterRefused? ==> e.k < |def.reporters|
  {
    match e
    case LoopFailed => []
    case AnalyzerRefused(k) =>
      [LeasesReleased, PluginsNotified, VerdictPublished] + AnalyzersTrace(def.analyzers[..k]) +
      [AnalyzerStarted(def.analyzers[k]), AnalyzerFailed(def.analyzers[k])]
    case ReporterRefused(k) =>
      [LeasesReleased, PluginsNotified, VerdictPublished] + AnalyzersTrace(def.analyzers) +
      ReportersTrace(def.reporters[..k]) + [ReporterStarted(def.reporters[k])]
    case Completed =>
      [LeasesReleased, PluginsNotified, VerdictPublished] + AnalyzersTrace(def.analyzers) +
      ReportersTrace(def.reporters) + [WorkflowFinished]
  }

  function FailureTrace(def: Definition, executed: seq<string>, answers: seq<bool>): seq<Event>
    requires |answers| == |Plan(def, executed)|
  {
    [WorkflowFailed] + RollbacksTrace(def, Plan(def, executed), answers) + [LeasesReleased, PluginsNotified]
  }

  predicate IsRun(def: Definition, run: Run) {
    Path(def, run.log) &&
    (run.ending.LoopFailed? ==> Stuck(def, run.log)) &&
    (!run.ending.LoopFailed? ==> Through(def, run.log)) &&
    (run.ending.AnalyzerRefused? ==> run.ending.k < |def.analyzers|) &&
    (run.ending.ReporterRefused? ==> run.ending.k < |def.reporters|) &&
    |run.answers| == (if run.ending.Completed? then 0 else |Plan(def, LogExecuted(run.log))|)
  }

  function Trace(def: Definition, run: Run): seq<Event>
    requires IsRun(def, run)
  {
    [WorkflowStarted] + LogTrace(run.log) + ConclusionTrace(def, run.ending) +
    if run.ending.Completed? then [] else FailureTrace(def, LogExecuted(run.log), run.answers)
  }
}
