/** One LLM call raced against a watcher of the cancel flag: the two child tasks
    and the coroutine that waits for them, stepped by the event loop in any
    order. */
module AgentRace {
  /** The task that consumes the LLM call. `asked` says that its cancellation
      has been requested. */
  datatype CallTask = Calling(asked: bool) | Returned(text: string) | Failed(error: string) | Stopped

  /** The task that polls the flag. */
  datatype WatchTask = Watching(asked: bool) | SawFlag | StoppedWatching

  datatype Outcome = Delivers(text: string) | Raises(error: string) | RaisesJobCancelled | RaisesCancelled

  /** Where the waiting coroutine is suspended, or how it ended. At the wait an
      outer cancel may be pending; at an await of the call, one that came when
      the call was done already and replaces its result. */
  datatype Pc =
    | AtWait(outerCancel: bool)
    | StoppingWatch
    | StoppingCall(replaced: bool)
    | OuterStoppingCall(replaced: bool)
    | OuterStoppingWatch
    | Exit(outcome: Outcome)

  /** Beside the live state: whether an outer cancel was taken at the wait, and
      whether the flag was read as set while the call was unfinished. */
  datatype State = State(call: CallTask, watch: WatchTask, pc: Pc, flag: bool, outerTaken: bool, sawInTime: bool)

  const INIT: State := State(Calling(false), Watching(false), AtWait(false), false, false, false)

  datatype Action =
    | CallReturns(text: string)
    | CallFails(error: string)
    | CancelledCallEnds(how: CallTask)
    | WatcherReads
    | CancelledWatcherEnds
    | FlagGoesUp
    | OuterCancels
    | Resume

  predicate CallDone(s: State) {
    !s.call.Calling?
  }

  predicate WatchDone(s: State) {
    !s.watch.Watching?
  }

  predicate Enabled(s: State, a: Action) {
    match a
    case CallReturns(_) => s.call == Calling(false)
    case CallFails(_) => s.call == Calling(false)
    case CancelledCallEnds(how) => s.call == Calling(true) && !how.Calling?
    case WatcherReads => s.watch == Watching(false)
    case CancelledWatcherEnds => s.watch == Watching(true)
    case FlagGoesUp => true
    case OuterCancels => !s.pc.Exit?
    case Resume =>
      match s.pc
      case AtWait(outer) => outer || CallDone(s) || WatchDone(s)
      case StoppingWatch => CallDone(s) && WatchDone(s)
      case StoppingCall(_) => CallDone(s)
      case OuterStoppingCall(_) => CallDone(s)
      case OuterStoppingWatch => WatchDone(s)
      case Exit(_) => false
  }

  /** `task.cancel()`: without effect on a task that is done. */
  function AskCall(c: CallTask): CallTask {
    if c.Calling? then Calling(true) else c
  }

  function AskWatch(w: WatchTask): WatchTask {
    if w.Watching? then Watching(true) else w
  }

  function Result(c: CallTask): Outcome
    requires !c.Calling?
  {
    match c
    case Returned(text) => Delivers(text)
    case Failed(error) => Raises(error)
    case Stopped => RaisesCancelled
  }

  /** Behind `await run_task` in the teardown for an outer cancel: only
      CancelledError is suppressed, and an await of a finished task does not
      suspend. */
  function BehindOuterCall(s: State, replaced: bool): State
    requires CallDone(s)
  {
    if s.call.Failed? && !replaced then s.(pc := Exit(Raises(s.call.error)))
    else if WatchDone(s) then s.(pc := Exit(RaisesCancelled))
    else s.(pc := OuterStoppingWatch)
  }

  function Step(s: State, a: Action): State
    requires Enabled(s, a)
  {
    match a
    case CallReturns(text) => s.(call := Returned(text))
    case CallFails(error) => s.(call := Failed(error))
    case CancelledCallEnds(how) => s.(call := how)
    case WatcherReads =>
      if s.flag then s.(watch := SawFlag, sawInTime := s.sawInTime || s.call.Calling?) else s
    case CancelledWatcherEnds => s.(watch := StoppedWatching)
    case FlagGoesUp => s.(flag := true)
    case OuterCancels =>
      // Only the wait lets an outer cancel through; the teardown awaits suppress it.
      (match s.pc
       case AtWait(_) => s.(pc := AtWait(true))
       case StoppingCall(_) => if CallDone(s) then s.(pc := StoppingCall(true)) else s
       case OuterStoppingCall(_) => if CallDone(s) then s.(pc := OuterStoppingCall(true)) else s
       case _ => s)
    case Resume =>
      match s.pc
      case AtWait(outer) =>
        if outer then
          var t := s.(call := AskCall(s.call), watch := AskWatch(s.watch), outerTaken := true);
          if CallDone(t) then BehindOuterCall(t, false) else t.(pc := OuterStoppingCall(false))
        else if CallDone(s) then
          if WatchDone(s) then s.(pc := Exit(Result(s.call))) else s.(watch := AskWatch(s.watch), pc := StoppingWatch)
        else s.(call := AskCall(s.call), pc := StoppingCall(false))
      case StoppingWatch => s.(pc := Exit(Result(s.call)))
      case StoppingCall(replaced) =>
        s.(pc := Exit(if s.call.Failed? && !replaced then Raises(s.call.error) else RaisesJobCancelled))
      case OuterStoppingCall(replaced) => BehindOuterCall(s, replaced)
      case OuterStoppingWatch => s.(pc := Exit(RaisesCancelled))
  }

  predicate IsRun(s: State, acts: seq<Action>)
    decreases acts
  {
    acts == [] || (Enabled(s, acts[0]) && IsRun(Step(s, acts[0]), acts[1..]))
  }

  function Exec(s: State, acts: seq<Action>): State
    requires IsRun(s, acts)
    decreases acts
  {
    if acts == [] then s else Exec(Step(s, acts[0]), acts[1..])
  }

  lemma EmptyRun(s: State)
    ensures IsRun(s, []) && Exec(s, []) == s
  {
  }

  lemma RunsBegin(s: State, a: Action, acts: seq<Action>)
    requires Enabled(s, a) && IsRun(Step(s, a), acts)
    ensures IsRun(s, [a] + acts) && Exec(s, [a] + acts) == Exec(Step(s, a), acts)
  {
    assert ([a] + acts)[1..] == acts;
  }

  /** A cancelled call does what `CancelledError` asks of it. */
  predicate Obeys(a: Action) {
    a.CancelledCallEnds? ==> a.how == Stopped
  }

  // ---- The invariant ----

  predicate Inv(s: State) {
    && (s.watch == SawFlag && s.call.Calling? ==> s.sawInTime)
    && (s.sawInTime ==> s.flag)
    && (s.outerTaken <==> s.pc.OuterStoppingCall? || s.pc.OuterStoppingWatch? || (s.pc.Exit? && s.outerTaken))
    && match s.pc
       case AtWait(_) => s.call != Calling(true) && s.call != Stopped && s.watch != Watching(true) && s.watch != StoppedWatching
       case StoppingWatch => CallDone(s) && s.call != Stopped && s.watch != Watching(false)
       case StoppingCall(_) => s.call != Calling(false) && s.watch == SawFlag && s.sawInTime
       case OuterStoppingCall(_) => s.call != Calling(false) && s.watch != Watching(false)
       case OuterStoppingWatch => CallDone(s) && s.watch != Watching(false)
       case Exit(outcome) => ExitAgrees(s, outcome)
  }

  predicate ExitAgrees(s: State, outcome: Outcome) {
    && CallDone(s)
    && (if s.outerTaken then
          || (outcome == RaisesCancelled && WatchDone(s))
          || (s.call.Failed? && outcome == Raises(s.call.error) && s.watch != Watching(false))
        else
          && WatchDone(s)
          && (outcome == RaisesJobCancelled ==> s.sawInTime)
          && (outcome != RaisesJobCancelled ==> s.call != Stopped && outcome == Result(s.call)))
  }

  lemma StepKeepsInv(s: State, a: Action)
    requires Inv(s) && Enabled(s, a)
    ensures Inv(Step(s, a))
  {
  }

  lemma {:induction false} RunKeepsInv(s: State, acts: seq<Action>)
    requires Inv(s) && IsRun(s, acts)
    ensures Inv(Exec(s, acts))
    decreases acts
  {
    if acts != [] {
      StepKeepsInv(s, acts[0]);
      RunKeepsInv(Step(s, acts[0]), acts[1..]);
    }
  }

  /** Every exit: the call has finished, and so has the watcher when no outer
      cancel was taken; a cancellation is reported only if the flag was read as
      set while the call was unfinished; anything else is the call's own result,
      or the outer cancel. */
  lemma EveryExit(acts: seq<Action>)
    requires IsRun(INIT, acts) && Exec(INIT, acts).pc.Exit?
    ensures var s := Exec(INIT, acts);
            && CallDone(s)
            && (!s.outerTaken ==> WatchDone(s))
            && (s.pc.outcome == RaisesJobCancelled ==> !s.outerTaken && s.sawInTime && s.flag)
            && (!s.outerTaken && s.pc.outcome != RaisesJobCancelled ==> s.pc.outcome == Result(s.call))
            && (s.outerTaken ==> s.pc.outcome == RaisesCancelled || (s.call.Failed? && s.pc.outcome == Raises(s.call.error)))
  {
    RunKeepsInv(INIT, acts);
  }

  // ---- Delivery ----

  lemma {:induction false} ResultStays(s: State, acts: seq<Action>)
    requires Inv(s) && IsRun(s, acts) && Exec(s, acts).pc.Exit?
    requires s.pc == StoppingWatch || (s.pc.Exit? && CallDone(s) && s.pc.outcome == Result(s.call))
    ensures Exec(s, acts).pc.outcome == Result(s.call)
    decreases acts
  {
    if acts != [] {
      StepKeepsInv(s, acts[0]);
      ResultStays(Step(s, acts[0]), acts[1..]);
    }
  }

  /** A result or error that is there when the wait returns is delivered in every
      run, even if the watcher has seen the flag in the same step and whatever
      cancels come afterwards. */
  lemma PresentResultIsDelivered(s: State, acts: seq<Action>)
    requires Inv(s) && s.pc == AtWait(false) && CallDone(s)
    requires IsRun(Step(s, Resume), acts) && Exec(Step(s, Resume), acts).pc.Exit?
    ensures Exec(Step(s, Resume), acts).pc.outcome == Result(s.call)
  {
    StepKeepsInv(s, Resume);
    ResultStays(Step(s, Resume), acts);
  }

  // ---- Outer cancels ----

  /** After an outer cancel was taken from the wait `w`: a call that had not
      failed there does not fail any more, and one that had has ended the
      coroutine at once. */
  predicate TakenFrom(w: State, s: State) {
    && Inv(s) && s.outerTaken
    && (s.call.Failed? <==> w.call.Failed?)
    && (w.call.Failed? ==> s.pc == Exit(Raises(w.call.error)))
    && (s.pc.Exit? && !w.call.Failed? ==> s.pc == Exit(RaisesCancelled) && WatchDone(s))
  }

  lemma TakingIsTakenFrom(w: State)
    requires Inv(w) && w.pc == AtWait(true)
    ensures TakenFrom(w, Step(w, Resume))
  {
  }

  lemma StepStaysTakenFrom(w: State, s: State, a: Action)
    requires TakenFrom(w, s) && Enabled(s, a) && Obeys(a)
    ensures TakenFrom(w, Step(s, a))
  {
    StepKeepsInv(s, a);
  }

  lemma {:induction false} RunStaysTakenFrom(w: State, s: State, acts: seq<Action>)
    requires TakenFrom(w, s) && IsRun(s, acts)
    requires forall k :: 0 <= k < |acts| ==> Obeys(acts[k])
    ensures TakenFrom(w, Exec(s, acts))
    decreases acts
  {
    hide TakenFrom, Step, Enabled;
    if acts != [] {
      assert Obeys(acts[0]);
      StepStaysTakenFrom(w, s, acts[0]);
      RunStaysTakenFrom(w, Step(s, acts[0]), acts[1..]);
    }
  }

  /** An outer cancel taken at the wait is raised again if and only if the call
      had not already failed: a failure that came first masks it. */
  lemma OuterCancelIsReRaisedExactly(s: State, acts: seq<Action>)
    requires Inv(s) && s.pc == AtWait(true) && IsRun(Step(s, Resume), acts)
    requires forall k :: 0 <= k < |acts| ==> Obeys(acts[k])
    requires Exec(Step(s, Resume), acts).pc.Exit?
    ensures var t := Exec(Step(s, Resume), acts);
            t.pc.outcome == RaisesCancelled <==> !s.call.Failed?
  {
    TakingIsTakenFrom(s);
    RunStaysTakenFrom(s, Step(s, Resume), acts);
  }

  // ---- When both tasks are finished ----

  /** `acts` leads from `s` to the exit with its last step. */
  predicate Exits(s: State, acts: seq<Action>) {
    IsRun(s, acts) && Exec(s, acts).pc.Exit? && acts != [] && IsRun(s, acts[..|acts| - 1])
    && !Exec(s, acts[..|acts| - 1]).pc.Exit?
  }

  /** The coroutine stays where it has ended. */
  lemma {:induction false} ExitIsFinal(s: State, acts: seq<Action>)
    requires s.pc.Exit? && IsRun(s, acts)
    ensures Exec(s, acts).pc == s.pc
    decreases acts
  {
    if acts != [] {
      ExitIsFinal(Step(s, acts[0]), acts[1..]);
    }
  }

  lemma ExitsStep(s: State, acts: seq<Action>)
    requires Exits(s, acts) && !s.pc.Exit?
    ensures Enabled(s, acts[0])
    ensures if |acts| == 1 then Step(s, acts[0]).pc.Exit? else !Step(s, acts[0]).pc.Exit? && Exits(Step(s, acts[0]), acts[1..])
    ensures Exec(s, acts) == Exec(Step(s, acts[0]), acts[1..])
  {
    hide Step, Enabled;
    var t := Step(s, acts[0]);
    if |acts| > 1 {
      assert acts[..|acts| - 1][1..] == acts[1..][..|acts[1..]| - 1];
      if t.pc.Exit? {
        ExitIsFinal(t, acts[1..][..|acts[1..]| - 1]);
      }
    } else {
      assert acts[1..] == [];
    }
  }

  /** Both tasks are finished when the coroutine exits, unless it was at the wait
      `w` that an outer cancel found the call failed and the watcher at work. */
  predicate LeavesBothFinishedExactly(w: State, t: State)
    requires w.pc.AtWait?
  {
    CallDone(t) && WatchDone(t) <==> !(w.pc.outerCancel && w.call.Failed? && w.watch.Watching?)
  }

  lemma {:induction false} OuterTeardownFinishes(w: State, s: State, acts: seq<Action>)
    requires TakenFrom(w, s) && !w.call.Failed? && IsRun(s, acts) && Exec(s, acts).pc.Exit?
    requires forall k :: 0 <= k < |acts| ==> Obeys(acts[k])
    ensures CallDone(Exec(s, acts)) && WatchDone(Exec(s, acts))
  {
    RunStaysTakenFrom(w, s, acts);
  }

  /** What the run from the wait's return to the exit leaves behind. */
  lemma FromTheWait(w: State, acts: seq<Action>)
    requires Inv(w) && w.pc.AtWait? && Enabled(w, Resume) && Exits(w, [Resume] + acts)
    requires forall k :: 0 <= k < |acts| ==> Obeys(acts[k])
    ensures LeavesBothFinishedExactly(w, Exec(w, [Resume] + acts))
  {
    var all := [Resume] + acts;
    assert all[1..] == acts;
    var r := Step(w, Resume);
    StepKeepsInv(w, Resume);
    ExitsStep(w, all);
    if w.pc.outerCancel {
      TakingIsTakenFrom(w);
      if !w.call.Failed? {
        OuterTeardownFinishes(w, r, acts);
      }
    } else {
      NotTaken(r, acts);
      RunKeepsInv(r, acts);
    }
  }

  lemma {:induction false} NotTaken(s: State, acts: seq<Action>)
    requires IsRun(s, acts) && !s.outerTaken && !s.pc.AtWait?
    ensures !Exec(s, acts).outerTaken
    decreases acts
  {
    if acts != [] {
      NotTaken(Step(s, acts[0]), acts[1..]);
    }
  }

  lemma {:induction false} ExitGoesThroughTheWait(s: State, acts: seq<Action>) returns (k: nat)
    requires s.pc.AtWait? && Inv(s) && Exits(s, acts)
    ensures k < |acts| && acts[k] == Resume && IsRun(s, acts[..k]) && Inv(Exec(s, acts[..k]))
    ensures var w := Exec(s, acts[..k]);
            w.pc.AtWait? && Enabled(w, Resume) && Exits(w, acts[k..]) && Exec(s, acts) == Exec(w, acts[k..])
    decreases acts
  {
    ExitsStep(s, acts);
    StepKeepsInv(s, acts[0]);
    if acts[0] == Resume {
      k := 0;
      assert acts[..0] == [] && acts[0..] == acts;
    } else {
      var t := Step(s, acts[0]);
      var j := ExitGoesThroughTheWait(t, acts[1..]);
      k := j + 1;
      assert acts[..k][1..] == acts[1..][..j] && acts[1..][j..] == acts[k..];
    }
  }

  /** Every run, with calls that obey cancellation: it returns from the wait at
      some step `k`, and at its exit both tasks are finished if and only if it
      was not so that an outer cancel met a failed call and a working watcher
      there. */
  lemma EveryExitLeavesBothFinishedExactly(acts: seq<Action>) returns (k: nat)
    requires Exits(INIT, acts) && forall i :: 0 <= i < |acts| ==> Obeys(acts[i])
    ensures k < |acts| && acts[k] == Resume && IsRun(INIT, acts[..k]) && Exec(INIT, acts[..k]).pc.AtWait?
    ensures LeavesBothFinishedExactly(Exec(INIT, acts[..k]), Exec(INIT, acts))
  {
    k := ExitGoesThroughTheWait(INIT, acts);
    var w := Exec(INIT, acts[..k]);
    var rest := acts[k + 1..];
    assert acts[k..] == [Resume] + rest;
    assert forall i :: 0 <= i < |rest| ==> rest[i] == acts[k + 1 + i];
    FromTheWait(w, rest);
  }

  /** A run in which the failure masks the outer cancel and the watcher is left
      behind unfinished. */
  lemma FailureLeavesTheWatcher() returns (acts: seq<Action>)
    ensures IsRun(INIT, acts)
    ensures var s := Exec(INIT, acts);
            s.outerTaken && s.pc == Exit(Raises("")) && !WatchDone(s)
  {
    acts := [CallFails(""), OuterCancels, Resume];
    assert acts[1..] == [OuterCancels, Resume];
    assert acts[1..][1..] == [Resume];
    assert acts[1..][1..][1..] == [];
    var s1 := Step(INIT, acts[0]);
    var s2 := Step(s1, OuterCancels);
    var s3 := Step(s2, Resume);
    assert IsRun(s3, []) && Exec(s3, []) == s3;
    assert IsRun(s2, [Resume]) && Exec(s2, [Resume]) == s3;
    assert IsRun(s1, acts[1..]) && Exec(s1, acts[1..]) == s3;
  }
}
