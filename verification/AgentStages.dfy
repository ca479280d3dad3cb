/** The race around an LLM call seen from the job protocol: what it can come to
    is exactly what the runner can do in a stage with such a call. */
module AgentStages {
  import opened JobRow
  import Pipeline
  import Race = AgentRace

  /** The step of the runner that an outcome of the race stands for. An outer
      cancel is no `Exception`: no handler sees it, and the runner is gone. */
  function StageStep(outcome: Race.Outcome): Pipeline.Action {
    match outcome
    case Delivers(_) => Pipeline.Finish
    case Raises(_) => Pipeline.Fail(Pipeline.Other)
    case RaisesJobCancelled => Pipeline.WatcherSeesFlag
    case RaisesCancelled => Pipeline.Kill
  }

  predicate InLlmStage(p: Pipeline.State) {
    p.pc.Work? && Pipeline.IsLlmStage(p.pc.stage)
  }

  /** The race reads the flag of the row: what it has seen there is there. */
  predicate ReadsFlagOf(s: Race.State, p: Pipeline.State) {
    s.flag ==> p.row.cancelRequested
  }

  /** The race ends in `outcome` and has read the flag of the row at `p`. */
  ghost predicate ComesTo(acts: seq<Race.Action>, outcome: Race.Outcome, p: Pipeline.State) {
    Race.IsRun(Race.INIT, acts) && Race.Exec(Race.INIT, acts).pc == Race.Exit(outcome)
    && ReadsFlagOf(Race.Exec(Race.INIT, acts), p)
  }

  /** Whatever the race comes to, the runner can take the step for it. */
  lemma EveryOutcomeIsAStep(acts: seq<Race.Action>, outcome: Race.Outcome, p: Pipeline.State)
    requires InLlmStage(p) && ComesTo(acts, outcome, p)
    ensures Pipeline.Enabled(p, StageStep(outcome))
  {
    hide Race.IsRun, Race.Exec;
    Race.EveryExit(acts);
  }

  /** The steps of the runner itself; requests of others are not among them. */
  predicate IsStageStep(a: Pipeline.Action) {
    a == Pipeline.Finish || a == Pipeline.Fail(Pipeline.Other) || a == Pipeline.WatcherSeesFlag || a == Pipeline.Kill
  }

  /** The race that ends at once with what the call comes to. */
  lemma CallEndsFirst(a: Race.Action) returns (acts: seq<Race.Action>)
    requires a.CallReturns? || a.CallFails?
    ensures Race.IsRun(Race.INIT, acts) && !Race.Exec(Race.INIT, acts).flag
    ensures Race.Exec(Race.INIT, acts).pc == Race.Exit(if a.CallReturns? then Race.Delivers(a.text) else Race.Raises(a.error))
  {
    hide Race.IsRun, Race.Exec;
    var s1 := Race.Step(Race.INIT, a);
    var s2 := Race.Step(s1, Race.Resume);
    var s3 := Race.Step(s2, Race.CancelledWatcherEnds);
    var s4 := Race.Step(s3, Race.Resume);
    Race.EmptyRun(s4);
    Race.RunsBegin(s3, Race.Resume, []);
    Race.RunsBegin(s2, Race.CancelledWatcherEnds, [Race.Resume] + []);
    Race.RunsBegin(s1, Race.Resume, [Race.CancelledWatcherEnds] + ([Race.Resume] + []));
    acts := [a] + ([Race.Resume] + ([Race.CancelledWatcherEnds] + ([Race.Resume] + [])));
    Race.RunsBegin(Race.INIT, a, acts[1..]);
  }

  lemma FlagIsSeenFirst() returns (acts: seq<Race.Action>)
    ensures Race.IsRun(Race.INIT, acts) && Race.Exec(Race.INIT, acts).pc == Race.Exit(Race.RaisesJobCancelled)
  {
    hide Race.IsRun, Race.Exec;
    var s1 := Race.Step(Race.INIT, Race.FlagGoesUp);
    var s2 := Race.Step(s1, Race.WatcherReads);
    var s3 := Race.Step(s2, Race.Resume);
    var s4 := Race.Step(s3, Race.CancelledCallEnds(Race.Stopped));
    var s5 := Race.Step(s4, Race.Resume);
    Race.EmptyRun(s5);
    Race.RunsBegin(s4, Race.Resume, []);
    acts := [Race.Resume] + [];
    Race.RunsBegin(s3, Race.CancelledCallEnds(Race.Stopped), acts);
    acts := [Race.CancelledCallEnds(Race.Stopped)] + acts;
    Race.RunsBegin(s2, Race.Resume, acts);
    acts := [Race.Resume] + acts;
    Race.RunsBegin(s1, Race.WatcherReads, acts);
    acts := [Race.WatcherReads] + acts;
    Race.RunsBegin(Race.INIT, Race.FlagGoesUp, acts);
    acts := [Race.FlagGoesUp] + acts;
  }

  lemma OuterCancelComesFirst() returns (acts: seq<Race.Action>)
    ensures Race.IsRun(Race.INIT, acts) && !Race.Exec(Race.INIT, acts).flag
    ensures Race.Exec(Race.INIT, acts).pc == Race.Exit(Race.RaisesCancelled)
  {
    hide Race.IsRun, Race.Exec;
    var s1 := Race.Step(Race.INIT, Race.OuterCancels);
    var s2 := Race.Step(s1, Race.Resume);
    var s3 := Race.Step(s2, Race.CancelledCallEnds(Race.Stopped));
    var s4 := Race.Step(s3, Race.CancelledWatcherEnds);
    var s5 := Race.Step(s4, Race.Resume);
    Race.EmptyRun(s5);
    Race.RunsBegin(s4, Race.Resume, []);
    acts := [Race.Resume] + [];
    Race.RunsBegin(s3, Race.CancelledWatcherEnds, acts);
    acts := [Race.CancelledWatcherEnds] + acts;
    Race.RunsBegin(s2, Race.CancelledCallEnds(Race.Stopped), acts);
    acts := [Race.CancelledCallEnds(Race.Stopped)] + acts;
    Race.RunsBegin(s1, Race.Resume, acts);
    acts := [Race.Resume] + acts;
    Race.RunsBegin(Race.INIT, Race.OuterCancels, acts);
    acts := [Race.OuterCancels] + acts;
  }

  /** In a stage with an LLM call the runner can take a step of its own exactly
      when some race comes to the outcome for it: the single step that stands
      for the call leaves nothing out and adds nothing. */
  lemma StageStepsAreOutcomesExactly(p: Pipeline.State, a: Pipeline.Action)
    requires InLlmStage(p) && IsStageStep(a)
    ensures Pipeline.Enabled(p, a) <==> exists acts, outcome :: ComesTo(acts, outcome, p) && StageStep(outcome) == a
  {
    hide Race.IsRun, Race.Exec;
    if Pipeline.Enabled(p, a) {
      var acts;
      match a
      case Finish =>
        acts := CallEndsFirst(Race.CallReturns(""));
        assert ComesTo(acts, Race.Delivers(""), p);
      case Fail(_) =>
        acts := CallEndsFirst(Race.CallFails(""));
        assert ComesTo(acts, Race.Raises(""), p);
      case WatcherSeesFlag =>
        acts := FlagIsSeenFirst();
        assert ComesTo(acts, Race.RaisesJobCancelled, p);
      case Kill =>
        acts := OuterCancelComesFirst();
        assert ComesTo(acts, Race.RaisesCancelled, p);
      case _ =>
    }
    if acts, outcome :| ComesTo(acts, outcome, p) && StageStep(outcome) == a {
      EveryOutcomeIsAStep(acts, outcome, p);
    }
  }
}
