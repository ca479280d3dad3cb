/** What the teardown of the race comes to, exactly, and that it always comes to an
    end. */
module RaceOutcomes {
  import opened AgentRace

  // ---- Finished tasks ----

  /** A task that has finished stays as it finished. */
  lemma FinishedTasksStay(s: State, a: Action)
    requires Enabled(s, a)
    ensures CallDone(s) ==> Step(s, a).call == s.call
    ensures WatchDone(s) ==> Step(s, a).watch == s.watch
  {
  }

  // ---- Cancels that come late ----

  /** In the run an outer cancel arrives while the call has finished already. */
  predicate CancelledLate(s: State, acts: seq<Action>)
    requires IsRun(s, acts)
    decreases acts
  {
    acts != [] && ((acts[0].OuterCancels? && CallDone(s)) || CancelledLate(Step(s, acts[0]), acts[1..]))
  }

  /** No cancel arrives after the exit. */
  lemma {:induction false} NoneAfterTheExit(s: State, acts: seq<Action>)
    requires s.pc.Exit? && IsRun(s, acts)
    ensures !CancelledLate(s, acts) && Exec(s, acts).pc == s.pc
    decreases acts
  {
    if acts != [] {
      NoneAfterTheExit(Step(s, acts[0]), acts[1..]);
    }
  }

  lemma {:induction false} FinishedCallStays(s: State, acts: seq<Action>)
    requires IsRun(s, acts) && CallDone(s)
    ensures Exec(s, acts).call == s.call
    decreases acts
  {
    hide Step, Enabled;
    if acts != [] {
      FinishedTasksStay(s, acts[0]);
      FinishedCallStays(Step(s, acts[0]), acts[1..]);
    }
  }

  /** What comes out of a teardown that awaits the call: its error, if it failed and no
      cancel replaced that, and else what the teardown is for. */
  function TornDown(call: CallTask, replaced: bool, otherwise: Outcome): Outcome {
    if call.Failed? && !replaced then Raises(call.error) else otherwise
  }

  lemma {:induction false} StoppingEnds(s: State, acts: seq<Action>)
    requires Inv(s) && s.pc.StoppingCall? && IsRun(s, acts) && Exec(s, acts).pc.Exit?
    ensures Exec(s, acts).pc.outcome ==
            TornDown(Exec(s, acts).call, s.pc.replaced || CancelledLate(s, acts), RaisesJobCancelled)
    decreases acts
  {
    var t := Step(s, acts[0]);
    var rest := acts[1..];
    StepKeepsInv(s, acts[0]);
    if t.pc.Exit? {
      NoneAfterTheExit(t, rest);
      FinishedCallStays(t, rest);
    } else {
      StoppingEnds(t, rest);
    }
  }

  lemma {:induction false} StoppingWatchEnds(s: State, acts: seq<Action>)
    requires Inv(s) && s.pc == OuterStoppingWatch && IsRun(s, acts) && Exec(s, acts).pc.Exit?
    ensures Exec(s, acts).pc.outcome == RaisesCancelled && Exec(s, acts).call == s.call
    decreases acts
  {
    var t := Step(s, acts[0]);
    StepKeepsInv(s, acts[0]);
    FinishedCallStays(s, acts);
    if t.pc.Exit? {
      NoneAfterTheExit(t, acts[1..]);
    } else {
      StoppingWatchEnds(t, acts[1..]);
    }
  }

  lemma {:induction false} OuterStoppingEnds(s: State, acts: seq<Action>)
    requires Inv(s) && s.pc.OuterStoppingCall? && IsRun(s, acts) && Exec(s, acts).pc.Exit?
    ensures Exec(s, acts).pc.outcome ==
            TornDown(Exec(s, acts).call, s.pc.replaced || CancelledLate(s, acts), RaisesCancelled)
    decreases acts
  {
    var t := Step(s, acts[0]);
    var rest := acts[1..];
    StepKeepsInv(s, acts[0]);
    if t.pc.Exit? {
      NoneAfterTheExit(t, rest);
      FinishedCallStays(t, rest);
    } else if t.pc == OuterStoppingWatch {
      StoppingWatchEnds(t, rest);
    } else {
      OuterStoppingEnds(t, rest);
    }
  }

  /** When the watcher has seen the flag first, the job is reported as cancelled, unless
      the call ends in an error of its own and no outer cancel comes behind that. */
  lemma StopForTheFlagExactly(s: State, acts: seq<Action>)
    requires Inv(s) && s.pc == AtWait(false) && !CallDone(s) && Enabled(s, Resume)
    requires IsRun(Step(s, Resume), acts) && Exec(Step(s, Resume), acts).pc.Exit?
    ensures var t := Step(s, Resume);
            Exec(t, acts).pc.outcome == TornDown(Exec(t, acts).call, CancelledLate(t, acts), RaisesJobCancelled)
  {
    StepKeepsInv(s, Resume);
    StoppingEnds(Step(s, Resume), acts);
  }

  /** When an outer cancel was taken with the call unfinished, it is raised again,
      unless the call ends in an error of its own and no further cancel comes behind
      that. */
  lemma StopForTheOuterCancelExactly(s: State, acts: seq<Action>)
    requires Inv(s) && s.pc == AtWait(true) && !CallDone(s)
    requires IsRun(Step(s, Resume), acts) && Exec(Step(s, Resume), acts).pc.Exit?
    ensures var t := Step(s, Resume);
            Exec(t, acts).pc.outcome == TornDown(Exec(t, acts).call, CancelledLate(t, acts), RaisesCancelled)
  {
    StepKeepsInv(s, Resume);
    OuterStoppingEnds(Step(s, Resume), acts);
  }

  // ---- The race can always end ----

  /** How much is still to come before the exit. */
  function ToCome(s: State): nat {
    (match s.pc
     case AtWait(_) => 4
     case StoppingCall(_) => 2
     case StoppingWatch => 2
     case OuterStoppingCall(_) => 3
     case OuterStoppingWatch => 2
     case Exit(_) => 0)
    * 3 + (if CallDone(s) then 0 else 1) + (if WatchDone(s) then 0 else 1)
  }

  /** The next step towards the exit: a task ends, or the coroutine resumes. */
  function Next(s: State): Action {
    if Enabled(s, Resume) then Resume
    else if s.call == Calling(true) then CancelledCallEnds(Stopped)
    else if s.watch == Watching(true) then CancelledWatcherEnds
    else CallReturns("")
  }

  lemma NextIsCloser(s: State)
    requires Inv(s) && !s.pc.Exit?
    ensures Enabled(s, Next(s)) && ToCome(Step(s, Next(s))) < ToCome(s)
  {
  }

  /** From wherever the race stands it can come to its exit. */
  lemma {:induction false} TheRaceCanEnd(s: State) returns (acts: seq<Action>)
    requires Inv(s)
    ensures IsRun(s, acts) && Exec(s, acts).pc.Exit?
    decreases ToCome(s)
  {
    hide Inv, Step, Enabled, Next, ToCome;
    acts := [];
    if !s.pc.Exit? {
      NextIsCloser(s);
      StepKeepsInv(s, Next(s));
      var rest := TheRaceCanEnd(Step(s, Next(s)));
      RunsBegin(s, Next(s), rest);
      acts := [Next(s)] + rest;
    }
  }

  // ---- Two runs ----

  /** A flag that goes up, and is even seen, when the result is there already does not
      count: the result is delivered. */
  lemma LateFlagDoesNotCount(text: string) returns (acts: seq<Action>)
    ensures IsRun(INIT, acts)
    ensures var t := Exec(INIT, acts);
            t.pc == Exit(Delivers(text)) && t.flag && t.watch == SawFlag && !t.sawInTime
  {
    hide IsRun, Exec;
    var s1 := Step(INIT, CallReturns(text));
    var s2 := Step(s1, FlagGoesUp);
    var s3 := Step(s2, WatcherReads);
    EmptyRun(Step(s3, Resume));
    RunsBegin(s3, Resume, []);
    RunsBegin(s2, WatcherReads, [Resume] + []);
    RunsBegin(s1, FlagGoesUp, [WatcherReads] + ([Resume] + []));
    acts := [CallReturns(text)] + ([FlagGoesUp] + ([WatcherReads] + ([Resume] + [])));
    RunsBegin(INIT, CallReturns(text), acts[1..]);
  }

  /** A call that answers its cancellation with an error of its own masks the outer
      cancel, and the watcher is left behind unfinished. */
  lemma DisobeyingCallLeavesTheWatcher(error: string) returns (acts: seq<Action>)
    ensures IsRun(INIT, acts)
    ensures var t := Exec(INIT, acts);
            t.pc == Exit(Raises(error)) && t.outerTaken && !WatchDone(t)
  {
    hide IsRun, Exec;
    var fails := CancelledCallEnds(Failed(error));
    var s1 := Step(INIT, OuterCancels);
    var s2 := Step(s1, Resume);
    var s3 := Step(s2, fails);
    EmptyRun(Step(s3, Resume));
    RunsBegin(s3, Resume, []);
    RunsBegin(s2, fails, [Resume] + []);
    RunsBegin(s1, Resume, [fails] + ([Resume] + []));
    acts := [OuterCancels] + ([Resume] + ([fails] + ([Resume] + [])));
    RunsBegin(INIT, OuterCancels, acts[1..]);
  }
}
