/** One whole run of a small workflow, with everything it publishes: a retried step, a parallel group with a tolerated
    failure, a step skipped by its condition, a pause, an analyzer and a reporter. */
module WorkflowExamples {

  import opened Workflow

  const RETRIED := Step("a", "p", "", 1, false, "", "", "", "b", "", "", false, false)
  const LEFT := Step("b", "p", "g", 0, false, "", "", "", "d", "", "", false, false)
  const RIGHT := Step("c", "p", "g", 0, true, "", "", "", "", "", "", false, false)
  const CONDITIONAL := Step("d", "p", "", 0, false, "k", "v", "", "x", "", "e", false, false)
  const LAST := Step("e", "p", "", 0, false, "", "", "", "", "", "", false, false)
  const SAMPLE := Definition("", [RETRIED, LEFT, RIGHT, CONDITIONAL, LAST], {"p"}, ["y"], ["z"])

  const RETRY := Single(RETRIED, false, StepRun(RETRIED, Success, 1))
  const GROUP := Batch(LEFT, false, [StepRun(LEFT, Success, 0), StepRun(RIGHT, ContinuedOnError, 1)])
  const SKIP := Single(CONDITIONAL, false, StepRun(CONDITIONAL, Skipped, 0))
  const PAUSED := Single(LAST, true, StepRun(LAST, Success, 0))
  const SAMPLE_LOG := [RETRY, GROUP, SKIP, PAUSED]
  const SAMPLE_RUN := Run(SAMPLE_LOG, Completed, [])

  lemma SampleSteps()
    ensures RETRIED in SAMPLE.steps && LEFT in SAMPLE.steps && RIGHT in SAMPLE.steps
    ensures CONDITIONAL in SAMPLE.steps && LAST in SAMPLE.steps && Entry(SAMPLE) == "a"
    ensures Known(SAMPLE, "a") && Known(SAMPLE, "b") && Known(SAMPLE, "d") && Known(SAMPLE, "e")
    ensures forall s :: s in SAMPLE.steps && s.parallelGroupId == "g" ==> s == LEFT || s == RIGHT
  {
    var d := SAMPLE.steps;
    assert d[0] == RETRIED && d[1] == LEFT && d[2] == RIGHT && d[3] == CONDITIONAL && d[4] == LAST;
  }

  lemma SampleAccepted()
    ensures WellFormed(SAMPLE)
  {
    SampleSteps();
    hide Known;
  }

  lemma GroupOnce()
    ensures EachOnce(SAMPLE, "g", GROUP.runs) && !AnyHardFailed(GROUP.runs)
  {
    SampleSteps();
    assert GROUP.runs[0].step == LEFT && GROUP.runs[1].step == RIGHT;
    hide Known, Entry, EachOnce;
    TwoMembers(SAMPLE, "g", GROUP.runs, LEFT, RIGHT);
  }

  lemma TwoMembers(def: Definition, group: string, runs: seq<StepRun>, l: Step, r: Step)
    requires |runs| == 2 && runs[0].step == l && runs[1].step == r && l.stepId != r.stepId
    requires l in def.steps && r in def.steps && l.parallelGroupId == r.parallelGroupId == group
    requires forall s :: s in def.steps && s.parallelGroupId == group ==> s == l || s == r
    ensures EachOnce(def, group, runs)
  {
    assert Ran(runs, l) && Ran(runs, r);
  }

  lemma GroupPossible()
    ensures forall i :: 0 <= i < |GROUP.runs| ==> Possible(SAMPLE, GROUP.runs[i])
  {
  }

  lemma OneMoreVisit(def: Definition, log: seq<Visit>, v: Visit)
    requires Path(def, log) && v.step in def.steps && After(def, log) == To(v.step.stepId)
    requires Known(def, v.step.stepId) && Allowed(def, log, v) && |log| < 100
    ensures Path(def, log + [v]) && After(def, log + [v]) == RouteAfter(def, v)
    ensures LogTrace(log + [v]) == LogTrace(log) + VisitTrace(v)
    ensures LogExecuted(log + [v]) == LogExecuted(log) + VisitExecuted(v)
  {
    assert (log + [v])[..|log|] == log && (log + [v])[|log|] == v;
    VisitsBound(log, v.step.stepId);
    hide Allowed, RouteAfter, VisitTrace, VisitExecuted, Known;
    assert Next(def, log, v);
  }

  lemma {:induction false} VisitsBound(log: seq<Visit>, id: string)
    ensures Visits(log, id) <= |log|
  {
    if log != [] { VisitsBound(log[..|log| - 1], id); }
  }

  lemma VisitTraces()
    ensures VisitTrace(RETRY) ==
      [ActivityStarted("a", 1), ActivityRetry("a", 1), ActivityStarted("a", 2), ActivityFinished("a", 2)]
    ensures VisitTrace(SKIP) == [ActivitySkipped("d")]
    ensures VisitTrace(PAUSED) == [Paused("e"), Resumed("e"), ActivityStarted("e", 1), ActivityFinished("e", 1)]
  {
    assert Tries("a", 0) == [] && Tries("e", 0) == [];
    assert Tries("a", 1) == [ActivityStarted("a", 1), ActivityRetry("a", 1)];
  }

  lemma GroupTrace()
    ensures VisitTrace(GROUP) ==
      [BatchStarted("g"), ActivityStarted("b", 1), ActivityFinished("b", 1),
       ActivityStarted("c", 1), ActivityRetry("c", 1), ActivityFailed("c"), BatchFinished("g", false)]
    ensures VisitExecuted(GROUP) == ["b", "c"]
  {
    var l, r := GROUP.runs[0], GROUP.runs[1];
    assert Tries("b", 0) == [] && Tries("c", 0) == [];
    assert Tries("c", 1) == [ActivityStarted("c", 1), ActivityRetry("c", 1)];
    assert GROUP.runs[..1] == [l] && [l][..0] == [];
    assert RunsTrace([]) == [] && RunsTrace([l]) == RunTrace(l) && RunsExecuted([]) == [] && RunsExecuted([l]) == ["b"];
  }

  lemma RetryVisit()
    ensures Allowed(SAMPLE, [], RETRY) && RouteAfter(SAMPLE, RETRY) == To("b") && VisitExecuted(RETRY) == ["a"]
  {
    SampleSteps();
    hide Known, WellFormed;
  }

  lemma GroupVisit()
    ensures Allowed(SAMPLE, [RETRY], GROUP) && RouteAfter(SAMPLE, GROUP) == To("d")
  {
    SampleSteps();
    GroupOnce();
    GroupPossible();
    hide Known, WellFormed, EachOnce, Possible, AnyHardFailed;
    assert !Processed([RETRY], "g");
  }

  lemma LaterVisits(log: seq<Visit>)
    ensures Allowed(SAMPLE, log, SKIP) && RouteAfter(SAMPLE, SKIP) == To("e") && VisitExecuted(SKIP) == []
    ensures Allowed(SAMPLE, log, PAUSED) && RouteAfter(SAMPLE, PAUSED) == To("") && VisitExecuted(PAUSED) == ["e"]
  {
    SampleSteps();
    hide Known, WellFormed;
  }

  lemma NoVisits(def: Definition)
    ensures Path(def, []) && LogTrace([]) == [] && LogExecuted([]) == [] && After(def, []) == To(Entry(def))
  {
  }

  lemma FirstTwo()
    ensures Path(SAMPLE, [RETRY, GROUP]) && After(SAMPLE, [RETRY, GROUP]) == To("d")
    ensures LogTrace([RETRY, GROUP]) == VisitTrace(RETRY) + VisitTrace(GROUP)
    ensures LogExecuted([RETRY, GROUP]) == ["a", "b", "c"]
  {
    SampleSteps();
    RetryVisit();
    GroupVisit();
    GroupTrace();
    NoVisits(SAMPLE);
    hide Allowed, RouteAfter, After, Known, Path, LogTrace, LogExecuted, VisitTrace, VisitExecuted, Entry;
    OneMoreVisit(SAMPLE, [], RETRY);
    assert [] + [RETRY] == [RETRY];
    OneMoreVisit(SAMPLE, [RETRY], GROUP);
    assert [RETRY] + [GROUP] == [RETRY, GROUP];
    assert [] + VisitTrace(RETRY) == VisitTrace(RETRY);
  }

  lemma AllFour()
    ensures Path(SAMPLE, SAMPLE_LOG) && After(SAMPLE, SAMPLE_LOG) == To("")
    ensures LogTrace(SAMPLE_LOG) == VisitTrace(RETRY) + VisitTrace(GROUP) + VisitTrace(SKIP) + VisitTrace(PAUSED)
    ensures LogExecuted(SAMPLE_LOG) == ["a", "b", "c", "e"]
  {
    SampleSteps();
    FirstTwo();
    var two, three := [RETRY, GROUP], [RETRY, GROUP, SKIP];
    LaterVisits(two);
    LaterVisits(three);
    hide Allowed, RouteAfter, After, Known, Path, LogTrace, LogExecuted, VisitTrace, VisitExecuted, Entry;
    OneMoreVisit(SAMPLE, two, SKIP);
    assert two + [SKIP] == three;
    OneMoreVisit(SAMPLE, three, PAUSED);
    assert three + [PAUSED] == SAMPLE_LOG;
    assert ["a", "b", "c"] + [] == ["a", "b", "c"];
  }

  /** The run of the workflow in which the first attempt of the first step fails, the right step of the group fails and
      is tolerated, the condition does not hold and the user pauses before the last step. */
  lemma SampleRun()
    ensures WellFormed(SAMPLE) && IsRun(SAMPLE, SAMPLE_RUN) && LogExecuted(SAMPLE_LOG) == ["a", "b", "c", "e"]
    ensures Trace(SAMPLE, SAMPLE_RUN) ==
      [WorkflowStarted] +
      ([ActivityStarted("a", 1), ActivityRetry("a", 1), ActivityStarted("a", 2), ActivityFinished("a", 2)] +
       [BatchStarted("g"), ActivityStarted("b", 1), ActivityFinished("b", 1),
        ActivityStarted("c", 1), ActivityRetry("c", 1), ActivityFailed("c"), BatchFinished("g", false)] +
       [ActivitySkipped("d")] +
       [Paused("e"), Resumed("e"), ActivityStarted("e", 1), ActivityFinished("e", 1)]) +
      [LeasesReleased, PluginsNotified, VerdictPublished, AnalyzerStarted("y"), AnalyzerFinished("y"),
       ReporterStarted("z"), ReporterFinished("z"), WorkflowFinished]
  {
    SampleAccepted();
    AllFour();
    VisitTraces();
    GroupTrace();
    SampleConclusion();
    assert IsRun(SAMPLE, SAMPLE_RUN) by { hide Path, WellFormed, LogTrace, LogExecuted, VisitTrace; }
    WholeTrace();
    hide *;
  }

  lemma WholeTrace()
    requires IsRun(SAMPLE, SAMPLE_RUN)
    ensures Trace(SAMPLE, SAMPLE_RUN) == [WorkflowStarted] + LogTrace(SAMPLE_LOG) + ConclusionTrace(SAMPLE, Completed)
  {
    hide LogTrace, ConclusionTrace, IsRun;
    NothingMore([WorkflowStarted] + LogTrace(SAMPLE_LOG) + ConclusionTrace(SAMPLE, Completed));
  }

  lemma NothingMore(t: seq<Event>)
    ensures t + [] == t
  {
  }

  lemma SampleConclusion()
    ensures ConclusionTrace(SAMPLE, Completed) ==
      [LeasesReleased, PluginsNotified, VerdictPublished, AnalyzerStarted("y"), AnalyzerFinished("y"),
       ReporterStarted("z"), ReporterFinished("z"), WorkflowFinished]
  {
    assert ["y"][..0] == [] && ["z"][..0] == [];
    assert AnalyzersTrace([]) == [] && ReportersTrace([]) == [];
    assert AnalyzersTrace(["y"]) == [AnalyzerStarted("y"), AnalyzerFinished("y")];
    assert ReportersTrace(["z"]) == [ReporterStarted("z"), ReporterFinished("z")];
  }
}
