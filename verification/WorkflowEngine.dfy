/** The interpreter of step graphs. The fields are the variables of one execution; plugins, users, analyzers and
    reporters answer arbitrarily. Every execution is proved to be a run of Workflow. */
module WorkflowEngine {

  import opened Workflow

  datatype Control = Continue | Pause | Skip | Abort

  /** What the world answered: a plugin that executed a step, the user asked before a step or batch, a plugin that
      compensated one, an analyzer, a reporter. */
  datatype Answer =
    | Executed(succeeded: bool, timedOut: bool)
    | Decided(control: Control, abort: bool, skip: bool)
    | Compensated(succeeded: bool)
    | Analyzed(succeeded: bool)
    | Reported(succeeded: bool)

  /** The answers of the attempts of one call: failures of them failed, by themselves or by taking too long, and one
      more succeeded in time exactly when the call did. */
  predicate AttemptsAnswered(answers: seq<Answer>, failures: nat, success: bool) {
    && |answers| == failures + (if success then 1 else 0)
    && forall k :: 0 <= k < |answers| ==>
         answers[k].Executed? && (answers[k].succeeded && !answers[k].timedOut <==> k == failures)
  }

  /** The first k of these answers agree, and the next one, if any, refuses. */
  predicate AgreedUpTo(answers: seq<Answer>, k: nat, refused: bool) {
    && |answers| == k + (if refused then 1 else 0)
    && forall j :: 0 <= j < |answers| ==>
         (answers[j].Analyzed? || answers[j].Reported?) && (answers[j].succeeded <==> j < k)
  }

  /** Visits and processed groups as the engine counts them. */
  ghost predicate Tallied(log: seq<Visit>, visitCount: map<string, nat>) {
    forall id :: Visits(log, id) == if id in visitCount then visitCount[id] else 0
  }

  ghost predicate Grouped(log: seq<Visit>, groups: set<string>) {
    forall g :: g in groups <==> Processed(log, g)
  }

  ghost predicate Indexed(def: Definition, stepById: map<string, Step>) {
    forall id :: (id in stepById <==> Known(def, id)) &&
                 (id in stepById ==> stepById[id] in def.steps && stepById[id].stepId == id)
  }

  /** stepById indexes these steps, whose ids are not empty and differ. */
  ghost predicate IndexedSteps(steps: seq<Step>, stepById: map<string, Step>) {
    (forall j :: 0 <= j < |steps| ==> steps[j].stepId != "" && steps[j].stepId in stepById) &&
    (forall j, k :: 0 <= j < k < |steps| ==> steps[j].stepId != steps[k].stepId) &&
    (forall id :: id in stepById ==> stepById[id] in steps && stepById[id].stepId == id)
  }

  function Value(data: map<string, string>, key: string): string {
    if key in data then data[key] else ""
  }

  class Engine {
    const def: Definition
    var trace: seq<Event>
    var data: map<string, string>
    var executed: seq<string>
    var stepById: map<string, Step>
    var current: string
    var transitions: nat
    var visitCount: map<string, nat>
    var groups: set<string>
    ghost var log: seq<Visit>
    // all answers of the world so far
    ghost var asked: seq<Answer>

    constructor (def: Definition)
      ensures this.def == def && trace == []
    {
      this.def := def;
      trace, data, executed, stepById, current := [], map[], [], map[], "";
      transitions, visitCount, groups, log, asked := 0, map[], {}, [], [];
    }

    /** The part of the execution that is on the bus agrees with the visits so far. */
    ghost predicate Core(base: seq<Event>)
      reads this
    {
      WellFormed(def) && Indexed(def, stepById) && Path(def, log) &&
      trace == base + ([WorkflowStarted] + LogTrace(log)) && executed == LogExecuted(log)
    }

    ghost predicate Running(base: seq<Event>)
      reads this
    {
      Core(base) && transitions == |log| && Tallied(log, visitCount) && Grouped(log, groups) &&
      After(def, log) == To(current)
    }

    method Publish(e: Event)
      modifies `trace
      ensures trace == old(trace) + [e]
    {
      trace := trace + [e];
    }

    /** Runs one step with its retries. */
    method RunStep(s: Step) returns (outcome: Outcome, ghost failures: nat)
      modifies `trace, `data, `executed, `asked
      ensures Possible(def, StepRun(s, outcome, failures))
      ensures outcome == Skipped <==>
                s.conditionKey != "" &&
                (if s.conditionKey in old(data) then old(data)[s.conditionKey] else "") != s.conditionEquals
      ensures failures <= (if s.maxRetries < 0 then 0 else s.maxRetries + 1)
      ensures outcome in {HardFailed, ContinuedOnError} && s.pluginId != "" && s.pluginId in def.loaded ==>
                failures == if s.maxRetries < 0 then 0 else s.maxRetries + 1
      ensures trace == old(trace) + RunTrace(StepRun(s, outcome, failures))
      ensures executed == old(executed) + RunExecuted(StepRun(s, outcome, failures))
      ensures old(asked) <= asked && AttemptsAnswered(asked[|old(asked)|..], failures, outcome == Success)
    {
      hide RunTrace, Tries;
      failures := 0;
      assert asked[|asked|..] == [];
      EndOfRun(trace, s, Skipped, 0);
      EndOfRun(trace, s, HardFailed, 0);
      if s.conditionKey != "" && Value(data, s.conditionKey) != s.conditionEquals {
        Publish(ActivitySkipped(s.stepId));
        return Skipped, 0;
      }
      if s.pluginId == "" {
        return HardFailed, 0;
      }
      if s.pluginId !in def.loaded {
        return HardFailed, 0;
      }
      outcome, failures := RunAttempts(s);
    }

    /** The plugin of a step executes, in time or not. */
    method ExecutePlugin() returns (succeeded: bool, timedOut: bool)
      modifies `asked
      ensures asked == old(asked) + [Executed(succeeded, timedOut)]
    {
      succeeded, timedOut := *, *;
      asked := asked + [Executed(succeeded, timedOut)];
    }

    /** The attempts of a step whose plugin is loaded. */
    method RunAttempts(s: Step) returns (outcome: Outcome, ghost failures: nat)
      requires Runnable(def, s)
      modifies `trace, `data, `executed, `asked
      ensures outcome != Skipped && Possible(def, StepRun(s, outcome, failures))
      ensures failures <= (if s.maxRetries < 0 then 0 else s.maxRetries + 1)
      ensures outcome != Success ==> failures == if s.maxRetries < 0 then 0 else s.maxRetries + 1
      ensures trace == old(trace) + RunTrace(StepRun(s, outcome, failures))
      ensures executed == old(executed) + RunExecuted(StepRun(s, outcome, failures))
      ensures old(asked) <= asked && AttemptsAnswered(asked[|old(asked)|..], failures, outcome == Success)
    {
      hide RunTrace, Tries;
      failures := 0;
      assert asked[|asked|..] == [];
      EndOfRun(trace, s, HardFailed, 0);
      var maxAttempts := s.maxRetries + 1;
      var attempt := 1;
      while attempt <= maxAttempts
        invariant 1 <= attempt && attempt - 1 <= Attempts(s) && failures == attempt - 1
        invariant trace == old(trace) + Tries(s.stepId, attempt - 1) && executed == old(executed)
        invariant old(asked) <= asked && AttemptsAnswered(asked[|old(asked)|..], failures, false)
      {
        EndOfRun(old(trace), s, Success, failures);
        OneMoreTry(old(trace), s.stepId, attempt);
        Publish(ActivityStarted(s.stepId, attempt));
        data := *;
        ghost var before := asked[|old(asked)|..];
        var pluginSucceeded, timedOut := ExecutePlugin();
        assert asked[|old(asked)|..] == before + [Executed(pluginSucceeded, timedOut)];
        if pluginSucceeded && !timedOut {
          Publish(ActivityFinished(s.stepId, attempt));
          executed := executed + [s.stepId];
          return Success, failures;
        }
        Publish(ActivityRetry(s.stepId, attempt));
        failures := attempt;
        attempt := attempt + 1;
      }
      EndOfRun(old(trace), s, ContinuedOnError, failures);
      EndOfRun(old(trace), s, HardFailed, failures);
      if s.continueOnError {
        executed := executed + [s.stepId];
        Publish(ActivityFailed(s.stepId));
        return ContinuedOnError, failures;
      }
      return HardFailed, failures;
    }

    /** Runs the members of a group, in any order. */
    method RunBatch(group: string) returns (hardFailed: bool, ghost runs: seq<StepRun>)
      requires WellFormed(def)
      modifies `trace, `data, `executed, `asked
      ensures EachOnce(def, group, runs) && forall i :: 0 <= i < |runs| ==> Possible(def, runs[i])
      ensures hardFailed == AnyHardFailed(runs)
      ensures trace == old(trace) + RunsTrace(runs) && executed == old(executed) + RunsExecuted(runs)
    {
      hide Possible, RunTrace, RunExecuted, RunsTrace, RunsExecuted, AnyHardFailed, Ran, WellFormed, EachOnce;
      var waiting := set s | s in def.steps && s.parallelGroupId == group;
      ghost var all := waiting;
      runs := [];
      hardFailed := false;
      NoRuns();
      while waiting != {}
        invariant waiting <= all && forall s :: s in all ==> s in waiting || Ran(runs, s)
        invariant forall i :: 0 <= i < |runs| ==> runs[i].step in all && runs[i].step !in waiting
        invariant forall i, j :: 0 <= i < j < |runs| ==> runs[i].step != runs[j].step
        invariant forall i :: 0 <= i < |runs| ==> Possible(def, runs[i])
        invariant hardFailed == AnyHardFailed(runs)
        invariant trace == old(trace) + RunsTrace(runs) && executed == old(executed) + RunsExecuted(runs)
        decreases |waiting|
      {
        var s :| s in waiting;
        waiting := waiting - {s};
        var outcome, failures := RunStep(s);
        ghost var r := StepRun(s, outcome, failures);
        MoreRuns(runs, r);
        runs := runs + [r];
        if outcome == HardFailed {
          hardFailed := true;
        }
      }
      BatchDone(def, group, runs);
    }

    method AskUser() returns (control: Control, abort: bool, skip: bool)
      modifies `asked
      ensures asked == old(asked) + [Decided(control, abort, skip)]
    {
      control, abort, skip := *, *, *;
      asked := asked + [Decided(control, abort, skip)];
    }

    /** Asks the user before a step or batch; a pause ends with a resume, a skip or an abort. */
    method OfferBreak(place: string) returns (control: Control, paused: bool)
      modifies `trace, `asked
      ensures control != Pause
      ensures trace == old(trace) + if !paused then [] else if control == Continue then [Paused(place), Resumed(place)]
                                    else [Paused(place)]
      ensures old(asked) < asked && |asked| == |old(asked)| + 1 && asked[|old(asked)|].Decided?
      ensures var a := asked[|old(asked)|];
              paused == (a.control == Pause) &&
              control == if a.control != Pause then a.control
                         else if a.abort then Abort else if a.skip then Skip else Continue
    {
      var abort, skip: bool;
      control, abort, skip := AskUser();
      paused := false;
      if control == Pause {
        Publish(Paused(place));
        if abort {
          return Abort, true;
        }
        if skip {
          return Skip, true;
        }
        Publish(Resumed(place));
        return Continue, true;
      }
    }

    method Apply(target: string) returns (failed: bool)
      requires Indexed(def, stepById)
      modifies `current
      ensures failed == Checked(def, target).Failing?
      ensures !failed ==> current == target
    {
      if target != "" && target !in stepById {
        return true;
      }
      current := target;
      return false;
    }

    /** The batch of a group that was not processed yet, with the user's say before it. */
    method StartBatch(s: Step) returns (control: Control, hardFailed: bool, ghost v: Visit)
      requires WellFormed(def)
      modifies `trace, `data, `executed, `asked
      ensures trace == old(trace) + VisitTrace(v) && executed == old(executed) + VisitExecuted(v)
      ensures v.step == s
      ensures match control
              case Abort => v.BatchAbort?
              case Skip => v.BatchSkip?
              case _ => v.Batch? && hardFailed == AnyHardFailed(v.runs) && EachOnce(def, s.parallelGroupId, v.runs) &&
                        forall i :: 0 <= i < |v.runs| ==> Possible(def, v.runs[i])
    {
      hide WellFormed, Possible, EachOnce, RunsTrace, RunsExecuted, AnyHardFailed, VisitTrace;
      var group := s.parallelGroupId;
      Publish(BatchStarted(group));
      hardFailed := false;
      var paused: bool;
      control, paused := OfferBreak(group);
      if control == Abort {
        v := BatchAbort(s, paused);
        StoppedTrace(old(trace), v);
        return;
      }
      if control == Skip {
        if !paused {
          Publish(BatchSkipped(group));
        }
        v := BatchSkip(s, paused);
        StoppedTrace(old(trace), v);
        return;
      }
      ghost var runs;
      hardFailed, runs := RunBatch(group);
      Publish(BatchFinished(group, hardFailed));
      v := Batch(s, paused, runs);
      BatchTrace(old(trace), v);
    }

    /** A step of a parallel group: the batch when the group is new, then the transition. */
    method VisitGroup(s: Step) returns (failed: bool, ghost v: Visit)
      requires WellFormed(def) && Indexed(def, stepById) && Grouped(log, groups)
      requires s in def.steps && Parallel(s)
      modifies `trace, `data, `executed, `asked, `current, `groups
      ensures v.step == s && Allowed(def, log, v) && Grouped(log + [v], groups)
      ensures RouteAfter(def, v) == if failed then Failing else To(current)
      ensures trace == old(trace) + VisitTrace(v) && executed == old(executed) + VisitExecuted(v)
    {
      hide WellFormed, Possible, EachOnce, Known, VisitTrace, AnyHardFailed, Processed, Indexed;
      if s.parallelGroupId !in groups {
        groups := groups + {s.parallelGroupId};
        var control, hardFailed;
        control, hardFailed, v := StartBatch(s);
        GroupsAfter(log, old(groups), v);
        if control == Abort {
          return true, v;
        }
        if control == Skip {
          current := SkipTarget(s);
          return false, v;
        }
        if hardFailed {
          if s.onFailure != "" {
            failed := Apply(s.onFailure);
            return;
          }
          return true, v;
        }
      } else {
        v := BatchAgain(s);
        GroupsAfter(log, old(groups), v);
        assert groups == groups + {s.parallelGroupId};
        AgainTrace(v);
      }
      failed := Apply(s.onSuccess);
    }

    /** A step outside groups, with the user's say before it. */
    method StartStep(s: Step) returns (control: Control, outcome: Outcome, ghost v: Visit)
      modifies `trace, `data, `executed, `asked
      ensures trace == old(trace) + VisitTrace(v) && executed == old(executed) + VisitExecuted(v)
      ensures v.step == s
      ensures match control
              case Abort => v.UserAbort?
              case Skip => v.UserSkip?
              case _ => v.Single? && v.run.step == s && v.run.outcome == outcome && Possible(def, v.run)
    {
      hide Possible, RunTrace, RunExecuted, VisitTrace;
      outcome := Skipped;
      var paused: bool;
      control, paused := OfferBreak(s.stepId);
      if control == Abort {
        v := UserAbort(s, paused);
        StoppedTrace(old(trace), v);
        return;
      }
      if control == Skip {
        Publish(ActivitySkipped(s.stepId));
        v := UserSkip(s, paused);
        StoppedTrace(old(trace), v);
        return;
      }
      ghost var failures;
      outcome, failures := RunStep(s);
      v := Single(s, paused, StepRun(s, outcome, failures));
      if Breaks(s, outcome) {
        Publish(BreakConditionMet(s.stepId));
      }
      SingleTrace(old(trace), v);
    }

    /** A step outside groups, then the transition. */
    method VisitStep(s: Step) returns (failed: bool, ghost v: Visit)
      requires Indexed(def, stepById)
      requires s in def.steps && !Parallel(s)
      modifies `trace, `data, `executed, `asked, `current
      ensures v.step == s && Allowed(def, log, v) && !OpensBatch(v, s.parallelGroupId)
      ensures RouteAfter(def, v) == if failed then Failing else To(current)
      ensures trace == old(trace) + VisitTrace(v) && executed == old(executed) + VisitExecuted(v)
    {
      hide Possible, Known, VisitTrace, VisitExecuted, Indexed;
      var control, outcome;
      control, outcome, v := StartStep(s);
      if control == Abort {
        return true, v;
      }
      if control == Skip {
        current := SkipTarget(s);
        return false, v;
      }
      if Breaks(s, outcome) {
        current := "";
        return false, v;
      }
      if outcome == HardFailed {
        if s.onFailure != "" {
          failed := Apply(s.onFailure);
          return;
        }
        return true, v;
      }
      failed := Apply(if outcome == Skipped then SkipTarget(s) else s.onSuccess);
    }

    /** One turn of the main loop. */
    method Iterate(ghost base: seq<Event>) returns (failed: bool)
      requires Running(base) && current != ""
      modifies this
      ensures Core(base)
      ensures if failed then Stuck(def, log) else Running(base) && |log| == |old(log)| + 1 <= MAX_TRANSITIONS
    {
      hide WellFormed, Indexed, Path, RouteAfter, Allowed, LogTrace, LogExecuted, VisitTrace, VisitExecuted, Known,
          Visits;
      hide Processed, OpensBatch;
      ghost var turn := current;
      assert Known(def, turn) <==> turn in stepById by { IndexedAt(def, stepById, turn); }
      transitions := transitions + 1;
      if transitions > MAX_TRANSITIONS {
        return true;
      }
      visitCount := visitCount[current := (if current in visitCount then visitCount[current] else 0) + 1];
      if current !in stepById {
        return true;
      }
      if visitCount[current] > MAX_VISITS {
        return true;
      }
      IndexedAt(def, stepById, turn);
      var step := stepById[current];
      ghost var v;
      if step.parallelGroupId != "" {
        failed, v := VisitGroup(step);
      } else {
        failed, v := VisitStep(step);
        SameGroups(log, groups, v);
      }
      Extended(def, log, v, base, old(trace), trace, old(executed), executed);
      TalliedAfter(log, old(visitCount), v, visitCount);
      log := log + [v];
      AfterLast(def, log);
    }

    method CompensatePlugin() returns (succeeded: bool)
      modifies `asked
      ensures asked == old(asked) + [Compensated(succeeded)]
    {
      succeeded := *;
      asked := asked + [Compensated(succeeded)];
    }

    /** Compensates one executed step. */
    method Rollback(id: string, c: string) returns (ghost ok: bool)
      requires WellFormed(def) && Indexed(def, stepById)
      modifies `trace, `data, `asked
      ensures trace == old(trace) + RollbackTrace(def, Workflow.Rollback(id, c), ok)
      ensures asked == if c in stepById && stepById[c].pluginId in def.loaded then old(asked) + [Compensated(ok)]
                       else old(asked)
    {
      hide WellFormed, Known;
      FindIndexed(def, stepById, c);
      if c !in stepById {
        Publish(CompensationFailed(id, c));
        return false;
      }
      if stepById[c].pluginId !in def.loaded {
        Publish(CompensationFailed(id, c));
        return false;
      }
      Publish(CompensationStarted(id, c));
      data := *;
      var succeeded := CompensatePlugin();
      if !succeeded {
        Publish(CompensationFailed(id, c));
      } else {
        Publish(CompensationFinished(id, c));
      }
      return succeeded;
    }

    /** Compensates the executed steps, newest first, every compensation once. */
    method RunCompensation() returns (ghost answers: seq<bool>)
      requires WellFormed(def) && Indexed(def, stepById)
      modifies `trace, `data, `asked
      ensures |answers| == |Plan(def, executed)|
      ensures trace == old(trace) + RollbacksTrace(def, Plan(def, executed), answers)
    {
      hide WellFormed, Indexed, Plan, Remaining, RollbackTrace, RollbacksTrace, CompensationOf;
      var seen := {};
      ghost var done := [];
      answers := [];
      var i := |executed|;
      RemainingAll(Plan(def, executed));
      assert executed[..i] == executed;
      NoRollbacks(def);
      while i > 0
        invariant 0 <= i <= |executed|
        invariant Plan(def, executed) == done + Remaining(Plan(def, executed[..i]), seen)
        invariant |answers| == |done| && trace == old(trace) + RollbacksTrace(def, done, answers)
      {
        i := i - 1;
        var id := executed[i];
        PlanStep(def, executed, i, seen);
        CompensationIndexed(def, stepById, id);
        if id !in stepById || stepById[id].compensationStepId == "" {
          continue;
        }
        var c := stepById[id].compensationStepId;
        if c in seen {
          continue;
        }
        ghost var ok := Rollback(id, c);
        MoreRollbacks(def, done, answers, Workflow.Rollback(id, c), ok, Remaining(Plan(def, executed[..i]),
            seen + {c}));
        done, answers := done + [Workflow.Rollback(id, c)], answers + [ok];
        seen := seen + {c};
      }
      NothingLeft(def, executed, seen);
      assert done + [] == done;
    }

    /** Every failing exit: the failure, the compensations, then the clean-up. */
    method FailWorkflow() returns (ghost answers: seq<bool>)
      requires WellFormed(def) && Indexed(def, stepById)
      modifies `trace, `data, `asked
      ensures |answers| == |Plan(def, executed)| && trace == old(trace) + FailureTrace(def, executed, answers)
    {
      hide WellFormed, Indexed, Plan, RollbacksTrace;
      Publish(WorkflowFailed);
      answers := RunCompensation();
      Publish(LeasesReleased);
      Publish(PluginsNotified);
    }

    method Analyze() returns (succeeded: bool)
      modifies `asked
      ensures asked == old(asked) + [Analyzed(succeeded)]
    {
      succeeded := *;
      asked := asked + [Analyzed(succeeded)];
    }

    method RunAnalyzers() returns (ok: bool, ghost k: nat)
      modifies `trace, `data, `asked
      ensures ok ==> trace == old(trace) + AnalyzersTrace(def.analyzers)
      ensures !ok ==> k < |def.analyzers| &&
                      trace == old(trace) + AnalyzersTrace(def.analyzers[..k]) +
                               [AnalyzerStarted(def.analyzers[k]), AnalyzerFailed(def.analyzers[k])]
      ensures old(asked) <= asked && AgreedUpTo(asked[|old(asked)|..], if ok then |def.analyzers| else k, !ok)
    {
      var i := 0;
      k := 0;
      assert asked[|asked|..] == [];
      while i < |def.analyzers|
        invariant 0 <= i <= |def.analyzers|
        invariant trace == old(trace) + AnalyzersTrace(def.analyzers[..i])
        invariant old(asked) <= asked && AgreedUpTo(asked[|old(asked)|..], i, false)
      {
        var id := def.analyzers[i];
        Publish(AnalyzerStarted(id));
        ghost var before := asked[|old(asked)|..];
        var analyzed := Analyze();
        assert asked[|old(asked)|..] == before + [Analyzed(analyzed)];
        if !analyzed {
          Publish(AnalyzerFailed(id));
          return false, i;
        }
        data := *;
        Publish(AnalyzerFinished(id));
        assert def.analyzers[..i + 1][..i] == def.analyzers[..i];
        i := i + 1;
      }
      assert def.analyzers[..i] == def.analyzers;
      return true, 0;
    }

    method Report() returns (succeeded: bool)
      modifies `asked
      ensures asked == old(asked) + [Reported(succeeded)]
    {
      succeeded := *;
      asked := asked + [Reported(succeeded)];
    }

    method RunReporters() returns (ok: bool, ghost k: nat)
      modifies `trace, `asked
      ensures ok ==> trace == old(trace) + ReportersTrace(def.reporters)
      ensures !ok ==> k < |def.reporters| &&
                      trace == old(trace) + ReportersTrace(def.reporters[..k]) + [ReporterStarted(def.reporters[k])]
      ensures old(asked) <= asked && AgreedUpTo(asked[|old(asked)|..], if ok then |def.reporters| else k, !ok)
    {
      var i := 0;
      k := 0;
      assert asked[|asked|..] == [];
      while i < |def.reporters|
        invariant 0 <= i <= |def.reporters|
        invariant trace == old(trace) + ReportersTrace(def.reporters[..i])
        invariant old(asked) <= asked && AgreedUpTo(asked[|old(asked)|..], i, false)
      {
        var id := def.reporters[i];
        Publish(ReporterStarted(id));
        ghost var before := asked[|old(asked)|..];
        var reported := Report();
        assert asked[|old(asked)|..] == before + [Reported(reported)];
        if !reported {
          return false, i;
        }
        Publish(ReporterFinished(id));
        assert def.reporters[..i + 1][..i] == def.reporters[..i];
        i := i + 1;
      }
      assert def.reporters[..i] == def.reporters;
      return true, 0;
    }

    /** After the loop: clean-up, verdict, analyzers and reporters. */
    method Conclude() returns (ok: bool, ghost ending: Ending, ghost answers: seq<bool>)
      requires WellFormed(def) && Indexed(def, stepById)
      modifies `trace, `data, `asked
      ensures !ending.LoopFailed? && ok == ending.Completed?
      ensures ending.AnalyzerRefused? ==> ending.k < |def.analyzers|
      ensures ending.ReporterRefused? ==> ending.k < |def.reporters|
      ensures |answers| == if ok then 0 else |Plan(def, executed)|
      ensures trace == old(trace) + ConclusionTrace(def, ending) + if ok then [] else FailureTrace(def, executed,
          answers)
    {
      hide WellFormed, Indexed, Plan, ConclusionTrace, FailureTrace, AnalyzersTrace, ReportersTrace;
      Publish(LeasesReleased);
      Publish(PluginsNotified);
      Publish(VerdictPublished);
      assert trace == old(trace) + [LeasesReleased, PluginsNotified, VerdictPublished];
      ghost var k;
      ok, k := RunAnalyzers();
      if !ok {
        ending := AnalyzerRefused(k);
        RefusedByAnalyzer(def, k, old(trace));
        answers := FailWorkflow();
        return;
      }
      ok, k := RunReporters();
      if !ok {
        ending := ReporterRefused(k);
        RefusedByReporter(def, k, old(trace));
        answers := FailWorkflow();
        return;
      }
      Publish(WorkflowFinished);
      AllAgreed(def, old(trace));
      return true, Completed, [];
    }

    /** Indexes the steps; fails on a definition the engine does not start. */
    method Validate() returns (ok: bool)
      modifies `stepById, `current
      ensures ok == WellFormed(def)
      ensures ok ==> Indexed(def, stepById) && current == Entry(def)
    {
      hide Known, WellFormed, Indexed, Entry, IndexedSteps;
      if |def.steps| == 0 {
        IllFormed(def, 0, 0);
        return false;
      }
      stepById := map[];
      NoSteps();
      var i := 0;
      while i < |def.steps|
        invariant 0 <= i <= |def.steps| && IndexedSteps(def.steps[..i], stepById)
      {
        var step := def.steps[i];
        if step.stepId == "" {
          IllFormed(def, i, i);
          return false;
        }
        if step.stepId in stepById {
          Duplicate(def, i, stepById);
          return false;
        }
        OneMoreStep(def.steps[..i], stepById, step);
        assert def.steps[..i + 1] == def.steps[..i] + [step];
        stepById := stepById[step.stepId := step];
        i := i + 1;
      }
      assert def.steps[..i] == def.steps;
      AllSteps(def, stepById);
      current := def.entryStepId;
      if current == "" {
        current := def.steps[0].stepId;
      }
      EntryIs(def, current);
      IndexedAt(def, stepById, current);
      return current in stepById;
    }

    /** Executes the workflow. preallocated is the answer of resource preallocation. */
    method Execute(hasBus: bool, preallocated: bool) returns (ok: bool, ghost run: Run)
      modifies this
      ensures !hasBus || !WellFormed(def) ==> !ok && trace == old(trace)
      ensures hasBus && WellFormed(def) && !preallocated ==>
          !ok && trace == old(trace) + [WorkflowStarted, WorkflowFailed]
      ensures hasBus && WellFormed(def) && preallocated ==>
                IsRun(def, run) && ok == run.ending.Completed? && trace == old(trace) + Trace(def, run)
    {
      hide WellFormed, Indexed, Path, RouteAfter, Plan, LogTrace, LogExecuted, FailureTrace, ConclusionTrace, Tallied,
          Grouped;
      run := Run([], Completed, []);
      if !hasBus {
        return false, run;
      }
      ok := Validate();
      if !ok {
        return;
      }
      Publish(WorkflowStarted);
      if !preallocated {
        Publish(WorkflowFailed);
        return false, run;
      }
      executed, log, transitions, visitCount, groups := [], [], 0, map[], {};
      Fresh(def);
      while current != ""
        invariant Running(old(trace))
        decreases MAX_TRANSITIONS - |log|
      {
        var failed := Iterate(old(trace));
        if failed {
          ghost var answers := FailWorkflow();
          run := Run(log, LoopFailed, answers);
          LoopFailedTrace(def, run);
          return false, run;
        }
      }
      ghost var ending, answers;
      ok, ending, answers := Conclude();
      run := Run(log, ending, answers);
    }
  }

  lemma OneMoreTry(t: seq<Event>, id: string, k: nat)
    requires k > 0
    ensures t + Tries(id, k) == t + Tries(id, k - 1) + [ActivityStarted(id, k)] + [ActivityRetry(id, k)]
  {
  }

  lemma EndOfRun(t: seq<Event>, s: Step, o: Outcome, k: nat)
    ensures t + Tries(s.stepId, 0) == t
    ensures t + RunTrace(StepRun(s, o, k)) ==
              match o
              case Skipped => t + [ActivitySkipped(s.stepId)]
              case Success =>
                t + Tries(s.stepId, k) + [ActivityStarted(s.stepId, k + 1)] + [ActivityFinished(s.stepId, k + 1)]
              case ContinuedOnError => t + Tries(s.stepId, k) + [ActivityFailed(s.stepId)]
              case HardFailed => t + Tries(s.stepId, k)
  {
  }

  lemma SingleTrace(t: seq<Event>, v: Visit)
    requires v.Single?
    ensures t + VisitTrace(v) ==
            t + PauseTrace(v.step.stepId, v.paused) + RunTrace(v.run) +
            if Breaks(v.step, v.run.outcome) then [BreakConditionMet(v.step.stepId)] else []
  {
  }

  lemma BatchTrace(t: seq<Event>, v: Visit)
    requires v.Batch?
    ensures var group := v.step.parallelGroupId;
            t + VisitTrace(v) ==
            t + [BatchStarted(group)] + PauseTrace(group, v.paused) + RunsTrace(v.runs) +
            [BatchFinished(group, AnyHardFailed(v.runs))]
  {
  }

  lemma StoppedTrace(t: seq<Event>, v: Visit)
    requires v.UserSkip? || v.UserAbort? || v.BatchSkip? || v.BatchAbort?
    ensures var id, group := v.step.stepId, v.step.parallelGroupId;
            t + VisitTrace(v) ==
              match v
              case UserSkip(_, paused) => t + (if paused then [Paused(id)] else []) + [ActivitySkipped(id)]
              case UserAbort(_, paused) => t + if paused then [Paused(id)] else []
              case BatchSkip(_, paused) => t + [BatchStarted(group)] +
                  if paused then [Paused(group)] else [BatchSkipped(group)]
              case _ => t + [BatchStarted(group)] + if v.paused then [Paused(group)] else []
  {
  }

  lemma RefusedByAnalyzer(def: Definition, k: nat, t: seq<Event>)
    requires k < |def.analyzers|
    ensures t + ConclusionTrace(def, AnalyzerRefused(k)) ==
            t + [LeasesReleased, PluginsNotified, VerdictPublished] + AnalyzersTrace(def.analyzers[..k]) +
            [AnalyzerStarted(def.analyzers[k]), AnalyzerFailed(def.analyzers[k])]
  {
  }

  lemma RefusedByReporter(def: Definition, k: nat, t: seq<Event>)
    requires k < |def.reporters|
    ensures t + ConclusionTrace(def, ReporterRefused(k)) ==
            t + [LeasesReleased, PluginsNotified, VerdictPublished] + AnalyzersTrace(def.analyzers) +
            ReportersTrace(def.reporters[..k]) + [ReporterStarted(def.reporters[k])]
  {
  }

  lemma AllAgreed(def: Definition, t: seq<Event>)
    ensures t + ConclusionTrace(def, Completed) ==
            t + [LeasesReleased, PluginsNotified, VerdictPublished] + AnalyzersTrace(def.analyzers) +
            ReportersTrace(def.reporters) + [WorkflowFinished]
  {
  }

  lemma IllFormed(def: Definition, i: nat, j: nat)
    requires def.steps == [] ||
             (i <= j < |def.steps| &&
              if i == j then def.steps[i].stepId == "" else def.steps[i].stepId == def.steps[j].stepId)
    ensures !WellFormed(def)
  {
  }

  lemma NoSteps()
    ensures IndexedSteps([], map[])
  {
  }

  lemma Duplicate(def: Definition, i: nat, stepById: map<string, Step>)
    requires i < |def.steps| && IndexedSteps(def.steps[..i], stepById) && def.steps[i].stepId in stepById
    ensures !WellFormed(def)
  {
    var j :| 0 <= j < i && def.steps[..i][j] == stepById[def.steps[i].stepId];
    IllFormed(def, j, i);
  }

  lemma OneMoreStep(steps: seq<Step>, stepById: map<string, Step>, step: Step)
    requires IndexedSteps(steps, stepById) && step.stepId != "" && step.stepId !in stepById
    ensures IndexedSteps(steps + [step], stepById[step.stepId := step])
  {
  }

  lemma AllSteps(def: Definition, stepById: map<string, Step>)
    requires def.steps != [] && IndexedSteps(def.steps, stepById)
    ensures Indexed(def, stepById)
    ensures WellFormed(def) <==> Known(def, Entry(def))
  {
    hide Known, Entry;
    IsIndexed(def, stepById);
  }

  lemma EntryIs(def: Definition, id: string)
    requires def.steps != [] && id == if def.entryStepId == "" then def.steps[0].stepId else def.entryStepId
    ensures id == Entry(def)
  {
  }

  lemma IndexedAt(def: Definition, stepById: map<string, Step>, id: string)
    requires Indexed(def, stepById)
    ensures id in stepById <==> Known(def, id)
    ensures id in stepById ==> stepById[id] in def.steps && stepById[id].stepId == id
  {
  }

  lemma IsIndexed(def: Definition, stepById: map<string, Step>)
    requires forall j :: 0 <= j < |def.steps| ==> def.steps[j].stepId in stepById
    requires forall id :: id in stepById ==> stepById[id] in def.steps && stepById[id].stepId == id
    ensures Indexed(def, stepById)
  {
    forall id ensures id in stepById <==> Known(def, id) {
      if id in stepById {
        var j :| 0 <= j < |def.steps| && def.steps[j] == stepById[id];
      }
    }
  }

  lemma FindIndexed(def: Definition, stepById: map<string, Step>, id: string)
    requires WellFormed(def) && Indexed(def, stepById)
    ensures Find(def.steps, id) == if id in stepById then AStep(stepById[id]) else NoStep
  {
    hide WellFormed;
    var m := Find(def.steps, id);
    if m.AStep? {
      var j :| 0 <= j < |def.steps| && def.steps[j] == m.step;
      assert Known(def, id);
      UniqueStep(def, m.step, stepById[id]);
    }
  }

  lemma CompensationIndexed(def: Definition, stepById: map<string, Step>, id: string)
    requires WellFormed(def) && Indexed(def, stepById)
    ensures CompensationOf(def, id) == if id in stepById then stepById[id].compensationStepId else ""
  {
    hide WellFormed, Indexed;
    FindIndexed(def, stepById, id);
  }

  lemma SameGroups(log: seq<Visit>, groups: set<string>, v: Visit)
    requires Grouped(log, groups) && v.step.parallelGroupId == "" && !OpensBatch(v, "")
    ensures Grouped(log + [v], groups)
  {
    var more := log + [v];
    assert more[|log|] == v;
    assert forall i :: 0 <= i < |log| ==> more[i] == log[i];
    forall g ensures Processed(more, g) <==> Processed(log, g) {
      if Processed(log, g) {
        var i :| 0 <= i < |log| && OpensBatch(log[i], g);
        assert OpensBatch(more[i], g);
      }
    }
  }

  lemma TalliedAfter(log: seq<Visit>, before: map<string, nat>, v: Visit, after: map<string, nat>)
    requires Tallied(log, before)
    requires var id := v.step.stepId; after == before[id := (if id in before then before[id] else 0) + 1]
    ensures Tallied(log + [v], after)
  {
    assert (log + [v])[..|log + [v]| - 1] == log;
  }

  lemma Extended(def: Definition, log: seq<Visit>, v: Visit, base: seq<Event>, t0: seq<Event>, t1: seq<Event>,
                 x0: seq<string>, x1: seq<string>)
    requires Path(def, log) && Next(def, log, v)
    requires t0 == base + ([WorkflowStarted] + LogTrace(log)) && t1 == t0 + VisitTrace(v)
    requires x0 == LogExecuted(log) && x1 == x0 + VisitExecuted(v)
    ensures Path(def, log + [v])
    ensures t1 == base + ([WorkflowStarted] + LogTrace(log + [v])) && x1 == LogExecuted(log + [v])
  {
    hide Next, VisitTrace, VisitExecuted;
    assert (log + [v])[..|log + [v]| - 1] == log;
  }

  lemma AfterLast(def: Definition, log: seq<Visit>)
    requires log != []
    ensures After(def, log) == RouteAfter(def, log[|log| - 1])
  {
  }

  lemma Fresh(def: Definition)
    ensures Path(def, []) && LogTrace([]) == [] && LogExecuted([]) == []
    ensures Tallied([], map[]) && Grouped([], {})
  {
  }

  lemma LoopFailedTrace(def: Definition, run: Run)
    requires run.ending.LoopFailed?
    ensures ConclusionTrace(def, run.ending) == []
  {
  }

  lemma {:induction false} RemainingAll(plan: seq<Workflow.Rollback>)
    ensures Remaining(plan, {}) == plan
  {
    if plan != [] {
      RemainingAll(plan[..|plan| - 1]);
    }
  }

  lemma {:induction false} RemainingTwice(plan: seq<Workflow.Rollback>, a: set<string>, b: set<string>)
    ensures Remaining(Remaining(plan, a), b) == Remaining(plan, a + b)
  {
    if plan != [] {
      var n := |plan| - 1;
      RemainingTwice(plan[..n], a, b);
      var rest := Remaining(plan[..n], a);
      assert (rest + [plan[n]])[..|rest|] == rest;
    }
  }

  lemma {:induction false} RemainingHead(r: Workflow.Rollback, plan: seq<Workflow.Rollback>, seen: set<string>)
    ensures Remaining([r] + plan, seen) == (if r.compensationId in seen then [] else [r]) + Remaining(plan, seen)
  {
    var all := [r] + plan;
    if plan == [] {
      assert all[..0] == [];
    } else {
      var n := |plan| - 1;
      RemainingHead(r, plan[..n], seen);
      assert all[..|all| - 1] == [r] + plan[..n];
    }
  }

  /** What is still due when the last of these executed steps is looked at. */
  lemma PlanStep(def: Definition, executed: seq<string>, i: nat, seen: set<string>)
    requires i < |executed|
    ensures var c := CompensationOf(def, executed[i]);
            var earlier := Plan(def, executed[..i]);
            Remaining(Plan(def, executed[..i + 1]), seen) ==
              if c == "" || c in seen then Remaining(earlier, seen)
              else [Workflow.Rollback(executed[i], c)] + Remaining(earlier, seen + {c})
  {
    hide CompensationOf;
    assert executed[..i + 1][..i] == executed[..i];
    var c := CompensationOf(def, executed[i]);
    var earlier := Plan(def, executed[..i]);
    if c != "" {
      RemainingHead(Workflow.Rollback(executed[i], c), Remaining(earlier, {c}), seen);
      RemainingTwice(earlier, {c}, seen);
      assert {c} + seen == seen + {c};
      assert c in seen ==> seen + {c} == seen;
    }
  }

  lemma NothingLeft(def: Definition, executed: seq<string>, seen: set<string>)
    ensures Remaining(Plan(def, executed[..0]), seen) == []
  {
    assert executed[..0] == [];
  }

  lemma NoRollbacks(def: Definition)
    ensures RollbacksTrace(def, [], []) == []
  {
  }

  lemma MoreRollbacks(def: Definition, plan: seq<Workflow.Rollback>, answers: seq<bool>, r: Workflow.Rollback, ok: bool,
                      rest: seq<Workflow.Rollback>)
    requires |answers| == |plan|
    ensures RollbacksTrace(def, plan + [r], answers + [ok]) == RollbacksTrace(def, plan, answers) + RollbackTrace(def,
        r, ok)
    ensures plan + ([r] + rest) == plan + [r] + rest
  {
    hide RollbackTrace;
    var n := |plan|;
    DropLast(plan, r);
    DropLast(answers, ok);
  }

  lemma DropLast<T>(s: seq<T>, x: T)
    ensures (s + [x])[..|s|] == s && (s + [x])[|s|] == x
  {
  }

  lemma MoreRuns(runs: seq<StepRun>, r: StepRun)
    ensures RunsTrace(runs + [r]) == RunsTrace(runs) + RunTrace(r)
    ensures RunsExecuted(runs + [r]) == RunsExecuted(runs) + RunExecuted(r)
    ensures AnyHardFailed(runs + [r]) <==> AnyHardFailed(runs) || r.outcome == HardFailed
    ensures forall s :: Ran(runs + [r], s) <==> Ran(runs, s) || r.step == s
  {
    hide RunTrace, RunExecuted;
    var more := runs + [r];
    DropLast(runs, r);
    assert forall i :: 0 <= i < |runs| ==> more[i] == runs[i];
  }

  lemma AgainTrace(v: Visit)
    requires v.BatchAgain?
    ensures VisitTrace(v) == []
  {
  }

  lemma NoRuns()
    ensures RunsTrace([]) == [] && RunsExecuted([]) == [] && !AnyHardFailed([])
  {
  }

  lemma BatchDone(def: Definition, group: string, runs: seq<StepRun>)
    requires WellFormed(def)
    requires forall i :: 0 <= i < |runs| ==> runs[i].step in def.steps && runs[i].step.parallelGroupId == group
    requires forall i, j :: 0 <= i < j < |runs| ==> runs[i].step != runs[j].step
    requires forall s :: s in def.steps && s.parallelGroupId == group ==> Ran(runs, s)
    ensures EachOnce(def, group, runs)
  {
    hide WellFormed, Ran;
    DistinctRuns(def, runs);
  }

  lemma DistinctRuns(def: Definition, runs: seq<StepRun>)
    requires WellFormed(def)
    requires forall i :: 0 <= i < |runs| ==> runs[i].step in def.steps
    requires forall i, j :: 0 <= i < j < |runs| ==> runs[i].step != runs[j].step
    ensures forall i, j :: 0 <= i < j < |runs| ==> runs[i].step.stepId != runs[j].step.stepId
  {
    hide WellFormed;
    forall i, j | 0 <= i < j < |runs| && runs[i].step.stepId == runs[j].step.stepId ensures false {
      UniqueStep(def, runs[i].step, runs[j].step);
    }
  }

  lemma GroupsAfter(log: seq<Visit>, groups: set<string>, v: Visit)
    requires Grouped(log, groups)
    requires OpensBatch(v, v.step.parallelGroupId) || v.step.parallelGroupId in groups
    ensures Grouped(log + [v], groups + {v.step.parallelGroupId})
  {
    var more := log + [v];
    assert more[|log|] == v;
    assert forall i :: 0 <= i < |log| ==> more[i] == log[i];
    forall g ensures g in groups + {v.step.parallelGroupId} <==> Processed(more, g) {
      if Processed(log, g) {
        var i :| 0 <= i < |log| && OpensBatch(log[i], g);
        assert OpensBatch(more[i], g);
      }
      if OpensBatch(v, g) {
        assert OpensBatch(more[|log|], g);
      }
    }
  }
}
