/** Which runs of the whole system there are: jobs that are started, shown and
    cancelled, replies that are lost, and workers that die and come back. */
module ClientRuns {
  import opened Text
  import opened JobRow
  import opened Worker
  import opened Extension
  import opened ClientAgreement
  import opened RestartTimes
  import Pipeline
  import PipelineRuns

  // ---- Putting runs together ----

  /** `acts` leads from `s` to `t`. */
  ghost predicate LeadsTo(s: State, acts: seq<Action>, t: State) {
    IsRun(s, acts) && Exec(s, acts) == t
  }

  lemma Stays(s: State)
    ensures LeadsTo(s, [], s)
  {
  }

  lemma {:induction false} Continues(s: State, acts: seq<Action>, t: State, a: Action)
    requires LeadsTo(s, acts, t) && Enabled(t, a)
    ensures LeadsTo(s, acts + [a], Step(t, a))
    decreases acts
  {
    hide Enabled, Step;
    if acts == [] {
      assert [] + [a] == [a] && [a][1..] == [];
      Stays(Step(t, a));
    } else {
      Continues(Step(s, acts[0]), acts[1..], t, a);
      assert (acts + [a])[1..] == acts[1..] + [a];
    }
  }

  lemma {:induction false} Chains(s: State, acts: seq<Action>, t: State, more: seq<Action>, r: State)
    requires LeadsTo(s, acts, t) && LeadsTo(t, more, r)
    ensures LeadsTo(s, acts + more, r)
    decreases acts
  {
    hide Enabled, Step;
    if acts == [] {
      assert [] + more == more;
    } else {
      Chains(Step(s, acts[0]), acts[1..], t, more, r);
      assert (acts + more)[1..] == acts[1..] + more;
    }
  }

  /** A run of one job in the backend is a run of the system. */
  lemma {:induction false} BackendRuns(s: State, j: string, steps: seq<Pipeline.Action>) returns (acts: seq<Action>)
    requires j in s.rows && Pipeline.IsRun(s.rows[j], steps)
    ensures LeadsTo(s, acts, s.(rows := s.rows[j := Pipeline.Exec(s.rows[j], steps)]))
    decreases steps
  {
    hide Pipeline.Step, Pipeline.Enabled;
    if steps == [] {
      acts := [];
      assert s.rows[j := s.rows[j]] == s.rows;
      Stays(s);
    } else {
      var a := BackendSteps(j, steps[0]);
      var t := Step(s, a);
      var rest := BackendRuns(t, j, steps[1..]);
      var end := Pipeline.Exec(s.rows[j], steps);
      assert t.rows[j := end] == s.rows[j := end];
      Stays(s);
      Continues(s, [], s, a);
      Chains(s, [] + [a], t, rest, t.(rows := t.rows[j := end]));
      acts := ([] + [a]) + rest;
    }
  }

  // ---- A job is started and polled ----

  /** The job is new: it is in the table, in progress, and polled by a timer. */
  predicate IsPolled(s: State, j: string, u: string) {
    && s.up && j in s.rows && Tracks(s.memory.jobs, u, j) && s.memory.jobs[u].status == Processing
    && j in s.memory.timers && s.memory.timers[j] == u
  }

  /** A job for a URL can always be started, and takes the place of an earlier one. */
  lemma CanBeStarted(s: State, j: string, u: string, now: nat) returns (acts: seq<Action>, t: State)
    requires s.up && j !in s.rows
    ensures LeadsTo(s, acts, t) && IsPolled(t, j, u) && t.rows == s.rows[j := Pipeline.Init(u)]
    ensures t.memory.jobs == s.memory.jobs[u := Job(j, u, Processing, 0, None, None, now, false)]
    ensures t.polls == s.polls + multiset{Waiting(j, u)} && t.cancels == s.cancels
  {
    hide LeadsTo;
    var s1 := Step(s, Posts(j, u));
    var s2 := Step(s1, StartReplies(Created(j, u), now));
    assert Tracks(s2.memory.jobs, u, j);
    t := Step(s2, StartContinues(InTable(j, u)));
    Stays(s);
    Continues(s, [], s, Posts(j, u));
    Continues(s, [] + [Posts(j, u)], s1, StartReplies(Created(j, u), now));
    acts := [] + [Posts(j, u)] + [StartReplies(Created(j, u), now)];
    Continues(s, acts, s2, StartContinues(InTable(j, u)));
    acts := acts + [StartContinues(InTable(j, u))];
  }

  /** A timer that fires, a request that is served and a reply that arrives: the job is
      shown as its row has it. */
  lemma CanBePolled(s: State, j: string, u: string) returns (acts: seq<Action>, t: State)
    requires IsPolled(s, j, u)
    ensures LeadsTo(s, acts, t) && t.rows == s.rows
    ensures t.memory.jobs == s.memory.jobs[u := Told(s.memory.jobs[u], s.rows[j].row)]
  {
    hide LeadsTo;
    var w := Waiting(j, u);
    var r := Answered(j, u, s.rows[j].row);
    var s1 := Step(s, TimerFires(j));
    assert w in s1.polls;
    var s2 := Step(s1, ServerReads(w));
    assert r in s2.polls;
    t := Step(s2, PollReplies(r));
    Stays(s);
    Continues(s, [], s, TimerFires(j));
    Continues(s, [] + [TimerFires(j)], s1, ServerReads(w));
    acts := [] + [TimerFires(j)] + [ServerReads(w)];
    Continues(s, acts, s2, PollReplies(r));
    acts := acts + [PollReplies(r)];
  }

  /** From every state of a running worker: any URL can be converted under any new id,
      and the result is shown with the backend's URL for it. */
  lemma CanBeConverted(s: State, j: string, u: string, url: string, now: nat) returns (acts: seq<Action>)
    requires s.up && j !in s.rows
    ensures IsRun(s, acts)
    ensures var t := Exec(s, acts);
            && j in t.rows && t.rows[j].row.status == Completed
            && Tracks(t.memory.jobs, u, j) && t.memory.jobs[u].status == Complete && t.memory.jobs[u].downloadUrl == Some(url)
  {
    hide IsRun, Exec, Pipeline.IsRun, Pipeline.Exec;
    var started, s1 := CanBeStarted(s, j, u, now);
    var steps := PipelineRuns.CanComplete(Pipeline.Init(u), url);
    var worked := BackendRuns(s1, j, steps);
    var s2 := s1.(rows := s1.rows[j := Pipeline.Exec(s1.rows[j], steps)]);
    var polled, t := CanBePolled(s2, j, u);
    Chains(s, started, s1, worked, s2);
    Chains(s, started + worked, s2, polled, t);
    acts := started + worked + polled;
  }

  /** And so from the very start. */
  lemma FirstJobCanBeConverted(j: string, u: string, url: string, now: nat) returns (acts: seq<Action>)
    ensures IsRun(INIT, acts)
    ensures var t := Exec(INIT, acts);
            && j in t.rows && t.rows[j].row.status == Completed
            && Tracks(t.memory.jobs, u, j) && t.memory.jobs[u].status == Complete && t.memory.jobs[u].downloadUrl == Some(url)
  {
    acts := CanBeConverted(INIT, j, u, url, now);
  }

  // ---- A job is cancelled ----

  /** The job's row is cancelled by a request that reads it and writes, before the
      first checkpoint. */
  lemma CancelSteps(u: string) returns (steps: seq<Pipeline.Action>)
    ensures Pipeline.IsRun(Pipeline.Init(u), steps)
    ensures Pipeline.Exec(Pipeline.Init(u), steps).row.status == Cancelled
  {
    hide Pipeline.IsRun, Pipeline.Exec;
    var p0 := Pipeline.Init(u);
    var p1 := Pipeline.Step(p0, Pipeline.RouteReads(0));
    var p2 := Pipeline.Step(p1, Pipeline.RouteWrites(0));
    var p3 := Pipeline.Step(p2, Pipeline.ReadFlag);
    var p4 := Pipeline.Step(p3, Pipeline.StoreCancelled);
    Pipeline.EmptyRun(p4);
    Pipeline.RunsBegin(p3, Pipeline.StoreCancelled, []);
    steps := [Pipeline.StoreCancelled] + [];
    Pipeline.RunsBegin(p2, Pipeline.ReadFlag, steps);
    steps := [Pipeline.ReadFlag] + steps;
    Pipeline.RunsBegin(p1, Pipeline.RouteWrites(0), steps);
    steps := [Pipeline.RouteWrites(0)] + steps;
    Pipeline.RunsBegin(p0, Pipeline.RouteReads(0), steps);
    steps := [Pipeline.RouteReads(0)] + steps;
  }

  /** The user asks for a cancel, and the request is answered: as accepted, or as
      refused, when the flag is taken back. */
  lemma CanBeAsked(s: State, j: string, u: string, accepted: bool) returns (acts: seq<Action>, t: State)
    requires IsPolled(s, j, u)
    ensures LeadsTo(s, acts, t) && IsPolled(t, j, u) && t.rows == s.rows && t.cancels == s.cancels
    ensures t.memory.jobs == s.memory.jobs[u := s.memory.jobs[u].(cancelRequested := accepted)]
  {
    hide LeadsTo;
    var c := Cancel(j, u);
    var answer := if accepted then CancelSucceeds(c) else CancelFails(c);
    var s1 := Step(s, AsksCancel(j, u));
    assert c in s1.cancels && s1.cancels - multiset{c} == s.cancels;
    t := Step(s1, answer);
    assert t.memory.jobs == s.memory.jobs[u := s.memory.jobs[u].(cancelRequested := accepted)];
    Stays(s);
    Continues(s, [], s, AsksCancel(j, u));
    Continues(s, [] + [AsksCancel(j, u)], s1, answer);
    acts := [] + [AsksCancel(j, u)] + [answer];
  }

  /** From every state of a running worker: a job can be started, cancelled, and shown
      as cancelled, with its flag taken back. */
  lemma CanBeCancelled(s: State, j: string, u: string, now: nat) returns (acts: seq<Action>)
    requires s.up && j !in s.rows
    ensures IsRun(s, acts)
    ensures var t := Exec(s, acts);
            Tracks(t.memory.jobs, u, j) && t.memory.jobs[u].status == CancelledShown && !t.memory.jobs[u].cancelRequested
  {
    hide IsRun, Exec, Pipeline.IsRun, Pipeline.Exec;
    var started, s1 := CanBeStarted(s, j, u, now);
    var asked, s2 := CanBeAsked(s1, j, u, true);
    var steps := CancelSteps(u);
    var worked := BackendRuns(s2, j, steps);
    var s3 := s2.(rows := s2.rows[j := Pipeline.Exec(s2.rows[j], steps)]);
    var polled, t := CanBePolled(s3, j, u);
    Chains(s, started, s1, asked, s2);
    Chains(s, started + asked, s2, worked, s3);
    Chains(s, started + asked + worked, s3, polled, t);
    acts := started + asked + worked + polled;
  }

  lemma CancelsBehind(s: State, a: Action, c: Cancel)
    requires Enabled(s, a) && c in Step(s, a).cancels
    ensures c in s.cancels || a == AsksCancel(c.jobId, c.url)
  {
    hide Inserted, Replied, Flagged, Restored, Polling, Guarded, Pipeline.Step, Pipeline.Enabled, WithPoll, WellKeyed, FirstPolls;
  }

  lemma RefusedIsOpen(s: State, c: Cancel)
    requires Enabled(s, CancelFails(c))
    ensures c in s.cancels
  {
  }

  /** In every run, a cancel that is refused was asked for before. */
  lemma {:induction false} RefusalsAreAsked(s: State, acts: seq<Action>, k: nat) returns (i: nat)
    requires IsRun(s, acts) && k < |acts| && acts[k].CancelFails? && acts[k].cancel !in s.cancels
    ensures i < k && acts[i] == AsksCancel(acts[k].cancel.jobId, acts[k].cancel.url)
    decreases acts
  {
    hide Step, Enabled;
    var c := acts[k].cancel;
    if k == 0 {
      RefusedIsOpen(s, c);
      assert false;
    } else if acts[0] == AsksCancel(c.jobId, c.url) {
      i := 0;
    } else {
      var t := Step(s, acts[0]);
      if c in t.cancels {
        CancelsBehind(s, acts[0], c);
      }
      var j := RefusalsAreAsked(t, acts[1..], k - 1);
      i := j + 1;
    }
  }

  // ---- Nothing needs to arrive ----

  /** Nothing is under way to the worker. */
  predicate IsQuiet(s: State) {
    s.polls == multiset{} && s.cancels == multiset{} && forall st :: st in s.starts ==> st.InTable?
  }

  lemma {:induction false} StartsCanBeLost(s: State) returns (acts: seq<Action>, t: State)
    ensures LeadsTo(s, acts, t) && t == s.(starts := t.starts) && forall st :: st in t.starts ==> st.InTable?
    decreases |s.starts|
  {
    hide LeadsTo;
    if st :| st in s.starts && st.Created? {
      var s1 := Step(s, StartIsLost(st));
      var rest, end := StartsCanBeLost(s1);
      Stays(s);
      Continues(s, [], s, StartIsLost(st));
      Chains(s, [] + [StartIsLost(st)], s1, rest, end);
      acts, t := [] + [StartIsLost(st)] + rest, end;
    } else {
      acts, t := [], s;
      Stays(s);
    }
  }

  lemma {:induction false} PollsCanBeLost(s: State) returns (acts: seq<Action>, t: State)
    ensures LeadsTo(s, acts, t) && t == s.(polls := multiset{})
    decreases |s.polls|
  {
    hide LeadsTo;
    if p :| p in s.polls {
      var s1 := Step(s, PollIsLost(p));
      var rest, end := PollsCanBeLost(s1);
      Stays(s);
      Continues(s, [], s, PollIsLost(p));
      Chains(s, [] + [PollIsLost(p)], s1, rest, end);
      acts, t := [] + [PollIsLost(p)] + rest, end;
    } else {
      acts, t := [], s;
      assert s.polls == multiset{};
      Stays(s);
    }
  }

  lemma {:induction false} CancelsCanSucceed(s: State) returns (acts: seq<Action>, t: State)
    ensures LeadsTo(s, acts, t) && t == s.(cancels := multiset{})
    decreases |s.cancels|
  {
    hide LeadsTo;
    if c :| c in s.cancels {
      var s1 := Step(s, CancelSucceeds(c));
      var rest, end := CancelsCanSucceed(s1);
      Stays(s);
      Continues(s, [], s, CancelSucceeds(c));
      Chains(s, [] + [CancelSucceeds(c)], s1, rest, end);
      acts, t := [] + [CancelSucceeds(c)] + rest, end;
    } else {
      acts, t := [], s;
      assert s.cancels == multiset{};
      Stays(s);
    }
  }

  /** From every state all that is under way can be lost or used up, with no effect on
      the backend, the worker or its storage. */
  lemma EverythingCanBeLost(s: State) returns (acts: seq<Action>, t: State)
    ensures LeadsTo(s, acts, t) && IsQuiet(t) && t == s.(starts := t.starts, polls := multiset{}, cancels := multiset{})
  {
    hide LeadsTo;
    var a, s1 := StartsCanBeLost(s);
    var b, s2 := PollsCanBeLost(s1);
    var c, s3 := CancelsCanSucceed(s2);
    Chains(s, a, s1, b, s2);
    Chains(s, a + b, s2, c, s3);
    acts, t := a + b + c, s3;
  }

  // ---- A worker dies and comes back ----

  /** Every snapshot on its way can land. */
  lemma {:induction false} WritesCanLand(s: State) returns (acts: seq<Action>, t: State)
    ensures LeadsTo(s, acts, t)
    ensures t == s.(memory := s.memory.(writes := []), stored := LastIssued(s.stored, s.memory.writes))
    decreases |s.memory.writes|
  {
    hide LeadsTo;
    if s.memory.writes != [] {
      var s1 := Step(s, WriteLands);
      var rest, end := WritesCanLand(s1);
      Stays(s);
      Continues(s, [], s, WriteLands);
      Chains(s, [] + [WriteLands], s1, rest, end);
      acts, t := [] + [WriteLands] + rest, end;
    } else {
      acts, t := [], s;
      Stays(s);
    }
  }

  /** From every sound state of a running worker: once its snapshots have landed it can be
      killed and started again, and every job that is no more than 24 hours old is back
      as it was, but for its progress. */
  lemma WorkerCanDieAndComeBack(s: State, now: nat) returns (acts: seq<Action>, t: State)
    requires Inv(s) && s.up
    ensures LeadsTo(s, acts, t) && t.up && t.rows == s.rows
    ensures forall u :: u in s.memory.jobs ==>
              && (u in t.memory.jobs <==> now <= s.memory.jobs[u].startedAt + 86400000)
              && (u in t.memory.jobs ==> t.memory.jobs[u].(progress := 0) == s.memory.jobs[u].(progress := 0))
    ensures forall u :: u in t.memory.jobs ==> u in s.memory.jobs
  {
    hide LeadsTo, Inv, Restored, WellKeyed, FirstPolls, Kept;
    var landed, s1 := WritesCanLand(s);
    var s2 := Step(s1, IsKilled);
    StoredIsSound(s);
    t := Step(s2, Restarts(now));
    Continues(s, landed, s1, IsKilled);
    Continues(s, landed + [IsKilled], s2, Restarts(now));
    acts := landed + [IsKilled] + [Restarts(now)];
    forall u | u in s.memory.jobs || u in t.memory.jobs
      ensures u in s.memory.jobs
      ensures u in t.memory.jobs <==> now <= s.memory.jobs[u].startedAt + 86400000
      ensures u in t.memory.jobs ==> t.memory.jobs[u].(progress := 0) == s.memory.jobs[u].(progress := 0)
    {
      RestartKeepsExactly(s2.stored, u, now);
    }
  }

  lemma StoredIsSound(s: State)
    requires Inv(s) && s.up
    ensures var stored := LastIssued(s.stored, s.memory.writes);
            WellKeyed(stored) && SameButProgress(stored, s.memory.jobs)
  {
    var stored := LastIssued(s.stored, s.memory.writes);
    assert stored in s.log && TableOk(s.rows, stored);
    SoundTablesAreWellKeyed(s.rows, stored);
  }

  // ---- Jobs of other clients ----

  /** The job is in no table and is not being started. */
  ghost predicate IsForeign(s: State, j: string) {
    && j in s.rows
    && (forall st :: st in s.starts ==> st.jobId != j)
    && (forall t :: Known(s, t) ==> IsFree(t, j))
  }

  lemma StartsBehindAny(s: State, a: Action, st: Start)
    requires Enabled(s, a) && st in Step(s, a).starts
    ensures (exists other :: other in s.starts && other.jobId == st.jobId) || (a.Posts? && st.jobId == a.jobId && a.jobId !in s.rows)
  {
    hide Inserted, Replied, Flagged, Restored, Polling, Guarded, Pipeline.Step, Pipeline.Enabled, WithPoll, WellKeyed, FirstPolls;
    if a.StartReplies? && st == InTable(a.start.jobId, a.start.url) {
      assert a.start in s.starts;
    }
  }

  lemma StepKeepsForeign(s: State, a: Action, j: string)
    requires Inv(s) && Enabled(s, a) && IsForeign(s, j)
    ensures IsForeign(Step(s, a), j)
  {
    hide Inv, Enabled, Step, ComeFrom, IsFree, Known;
    StepComesFrom(s, a);
    RowsStay(s, a, j);
    var t := Step(s, a);
    if a.StartReplies? {
      StartRepliesIs(s, a);
    }
    forall st | st in t.starts ensures st.jobId != j {
      StartsBehindAny(s, a, st);
    }
    forall table | Known(t, table) ensures IsFree(table, j) {
      StaysFree(s, a, table, j);
    }
  }

  lemma {:induction false} RunKeepsForeign(s: State, acts: seq<Action>, j: string)
    requires Inv(s) && IsForeign(s, j) && IsRun(s, acts)
    ensures IsForeign(Exec(s, acts), j)
    decreases acts
  {
    hide Inv, IsForeign, Enabled, Step;
    if acts != [] {
      StepKeepsInv(s, acts[0]);
      StepKeepsForeign(s, acts[0], j);
      RunKeepsForeign(Step(s, acts[0]), acts[1..], j);
    }
  }

  /** Another client can post a job under any new id. */
  lemma ForeignBegins(s: State, j: string, u: string)
    requires Inv(s) && j !in s.rows
    ensures Enabled(s, OtherClientPosts(j, u)) && IsForeign(Step(s, OtherClientPosts(j, u)), j)
  {
    hide TableOk, RowsOk, PollsOk, TimersOk, LogOk, PathOk, SameButProgress, IsFree;
    var t := Step(s, OtherClientPosts(j, u));
    forall st | st in s.starts ensures st.jobId != j {
      StartIsInRows(s, st);
    }
    forall table | Known(t, table) ensures IsFree(table, j) {
      ForeignIdIsFree(s, table, j);
    }
  }

  lemma PostedIsNew(s: State, j: string, u: string)
    requires Enabled(s, OtherClientPosts(j, u))
    ensures j !in s.rows
  {
  }

  /** A job that another client posts is in no table and no snapshot of any run. */
  lemma ForeignJobsAreNeverShown(s: State, j: string, u: string, acts: seq<Action>)
    requires Inv(s) && Enabled(s, OtherClientPosts(j, u)) && IsRun(Step(s, OtherClientPosts(j, u)), acts)
    ensures var t := Exec(Step(s, OtherClientPosts(j, u)), acts);
            IsFree(t.memory.jobs, j) && IsFree(t.stored, j)
  {
    hide Inv, IsFree, Step, Enabled;
    PostedIsNew(s, j, u);
    ForeignBegins(s, j, u);
    StepKeepsInv(s, OtherClientPosts(j, u));
    RunKeepsForeign(Step(s, OtherClientPosts(j, u)), acts, j);
    RunKeepsInv(Step(s, OtherClientPosts(j, u)), acts);
    PathIsOk(Exec(Step(s, OtherClientPosts(j, u)), acts));
  }
}
