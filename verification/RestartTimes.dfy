/** When a job comes back after a restart: the time it was started at is that of
    its insertion in every table that ever holds it, and a day later it goes. */
module RestartTimes {
  import opened Text
  import opened JobRow
  import opened Worker
  import opened Extension
  import opened ClientAgreement
  import Pipeline

  /** A restart keeps an entry, unchanged, if and only if the job was started no
      more than 24 hours ago; and it brings nothing else. */
  lemma RestartKeepsExactly(stored: Table, u: string, now: nat)
    requires WellKeyed(stored)
    ensures var jobs := Restored(stored, now).jobs;
            && (u in jobs <==> u in stored && now <= stored[u].startedAt + 86400000)
            && (u in jobs ==> jobs[u] == stored[u])
  {
    hide TimersFor, Kept, WellKeyed;
    KeptExactly(stored, now);
  }

  // ---- Where entries come from ----

  /** A table in memory or in a snapshot. */
  predicate Known(s: State, t: Table) {
    t == s.memory.jobs || t in s.log
  }

  /** Some table has the entry's job, started at the same time. */
  ghost predicate HeldBefore(s: State, u: string, job: Job) {
    exists t: Table :: Known(s, t) && u in t && t[u].jobId == job.jobId && t[u].startedAt == job.startedAt
  }

  predicate IsInsertion(a: Action, u: string, job: Job) {
    a.StartReplies? && u == a.start.url && job.jobId == a.start.jobId && job.startedAt == a.now
  }

  ghost predicate ComeFrom(s: State, a: Action, t: Table) {
    forall u :: u in t ==> HeldBefore(s, u, t[u]) || IsInsertion(a, u, t[u])
  }

  lemma KnownComeFrom(s: State, a: Action, t: Table)
    requires Known(s, t)
    ensures ComeFrom(s, a, t)
  {
  }

  /** A snapshot that joins the log is the table of the memory. */
  lemma LogGrows(s: State, m: Memory)
    requires PathOk(s.log, s.stored, s.memory.writes)
    requires m.writes == s.memory.writes || m.writes == s.memory.writes + [m.jobs]
    ensures forall t :: t in Logged(s, m).log ==> t in s.log || t == m.jobs
  {
    if m.writes != [] && m.writes == s.memory.writes {
      assert m.writes[|m.writes| - 1] in s.log;
    }
  }

  lemma TablesComeFrom(s: State, a: Action, m: Memory)
    requires PathOk(s.log, s.stored, s.memory.writes) && ComeFrom(s, a, m.jobs)
    requires m.writes == s.memory.writes || m.writes == s.memory.writes + [m.jobs]
    ensures forall t :: t == m.jobs || t in Logged(s, m).log ==> ComeFrom(s, a, t)
  {
    hide ComeFrom, Logged, PathOk;
    LogGrows(s, m);
    forall t | t == m.jobs || t in Logged(s, m).log ensures ComeFrom(s, a, t) {
      if t != m.jobs {
        KnownComeFrom(s, a, t);
      }
    }
  }

  lemma InsertedComeFrom(s: State, st: Start, now: nat)
    ensures ComeFrom(s, StartReplies(st, now), Inserted(s.memory, st.jobId, st.url, now).jobs)
  {
    var t := Inserted(s.memory, st.jobId, st.url, now).jobs;
    forall u | u in t ensures HeldBefore(s, u, t[u]) || IsInsertion(StartReplies(st, now), u, t[u]) {
      if u != st.url {
        assert Known(s, s.memory.jobs) && s.memory.jobs[u] == t[u];
      }
    }
  }

  lemma RepliedComeFrom(s: State, a: Action, jobId: string, url: string, row: Row)
    ensures ComeFrom(s, a, Replied(s.memory, jobId, url, row).jobs)
  {
    var t := Replied(s.memory, jobId, url, row).jobs;
    forall u | u in t ensures HeldBefore(s, u, t[u]) {
      assert Known(s, s.memory.jobs) && u in s.memory.jobs;
    }
  }

  lemma FlaggedComeFrom(s: State, a: Action, jobId: string, url: string, flag: bool)
    ensures ComeFrom(s, a, Flagged(s.memory, jobId, url, flag).jobs)
  {
    var t := Flagged(s.memory, jobId, url, flag).jobs;
    forall u | u in t ensures HeldBefore(s, u, t[u]) {
      assert Known(s, s.memory.jobs) && u in s.memory.jobs;
    }
  }

  lemma RestoredComeFrom(s: State, a: Action, now: nat)
    requires PathOk(s.log, s.stored, s.memory.writes) && WellKeyed(s.stored)
    ensures ComeFrom(s, a, Restored(s.stored, now).jobs)
  {
    hide TimersFor, WellKeyed;
    var t := Restored(s.stored, now).jobs;
    forall u | u in t ensures HeldBefore(s, u, t[u]) {
      assert Known(s, s.stored) && u in s.stored;
    }
  }

  lemma NothingComesFrom(s: State, a: Action)
    ensures ComeFrom(s, a, map[])
  {
  }

  lemma PathIsOk(s: State)
    requires Inv(s)
    ensures PathOk(s.log, s.stored, s.memory.writes) && (!s.up ==> s.memory == NO_MEMORY)
  {
  }

  ghost predicate AllComeFrom(s: State, a: Action, t: State) {
    forall table :: Known(t, table) ==> ComeFrom(s, a, table)
  }

  /** What a step leaves in the tables was there before, or is what it inserts. */
  lemma StepComesFrom(s: State, a: Action)
    requires Inv(s) && Enabled(s, a)
    ensures AllComeFrom(s, a, Step(s, a))
  {
    hide Inv, ComeFrom, PathOk, Inserted, Replied, Flagged, Restored, Logged, Killed, Pipeline.Step, Pipeline.Enabled, WithPoll;
    hide WellKeyed, FirstPolls, Kept;
    PathIsOk(s);
    match a
    case StartReplies(st, now) => InsertComesFrom(s, st, now);
    case PollReplies(p) => ReplyComesFrom(s, p);
    case AsksCancel(j, u) => FlagComesFrom(s, a, j, u, true);
    case CancelFails(c) => FlagComesFrom(s, a, c.jobId, c.url, false);
    case Restarts(now) => RestartComesFrom(s, now);
    case IsKilled => KillComesFrom(s);
    case _ => OtherComesFrom(s, a);
  }

  lemma InsertComesFrom(s: State, st: Start, now: nat)
    requires PathOk(s.log, s.stored, s.memory.writes) && Enabled(s, StartReplies(st, now))
    ensures AllComeFrom(s, StartReplies(st, now), Step(s, StartReplies(st, now)))
  {
    hide ComeFrom, PathOk;
    var m := Inserted(s.memory, st.jobId, st.url, now);
    InsertedComeFrom(s, st, now);
    TablesComeFrom(s, StartReplies(st, now), m);
  }

  lemma ReplyComesFrom(s: State, p: Poll)
    requires PathOk(s.log, s.stored, s.memory.writes) && Enabled(s, PollReplies(p))
    ensures AllComeFrom(s, PollReplies(p), Step(s, PollReplies(p)))
  {
    hide ComeFrom, PathOk;
    var m := Replied(s.memory, p.jobId, p.url, p.row);
    RepliedComeFrom(s, PollReplies(p), p.jobId, p.url, p.row);
    TablesComeFrom(s, PollReplies(p), m);
  }

  lemma FlagComesFrom(s: State, a: Action, jobId: string, url: string, flag: bool)
    requires PathOk(s.log, s.stored, s.memory.writes) && Enabled(s, a)
    requires (a == AsksCancel(jobId, url) && flag) || (a.CancelFails? && a.cancel == Cancel(jobId, url) && !flag)
    ensures AllComeFrom(s, a, Step(s, a))
  {
    hide ComeFrom, PathOk;
    var m := Flagged(s.memory, jobId, url, flag);
    FlaggedComeFrom(s, a, jobId, url, flag);
    TablesComeFrom(s, a, m);
  }

  lemma RestartComesFrom(s: State, now: nat)
    requires PathOk(s.log, s.stored, s.memory.writes) && Enabled(s, Restarts(now)) && s.memory == NO_MEMORY
    ensures AllComeFrom(s, Restarts(now), Step(s, Restarts(now)))
  {
    hide ComeFrom, PathOk, TimersFor, WellKeyed, Kept, FirstPolls;
    var m := Restored(s.stored, now);
    RestoredComeFrom(s, Restarts(now), now);
    TablesComeFrom(s, Restarts(now), m);
  }

  lemma KillComesFrom(s: State)
    requires Enabled(s, IsKilled)
    ensures AllComeFrom(s, IsKilled, Step(s, IsKilled))
  {
    hide ComeFrom;
    NothingComesFrom(s, IsKilled);
    forall table | Known(Step(s, IsKilled), table) ensures ComeFrom(s, IsKilled, table) {
      if table != map[] {
        KnownComeFrom(s, IsKilled, table);
      }
    }
  }

  lemma OtherKeepsTables(s: State, a: Action)
    requires Enabled(s, a) && !a.StartReplies? && !a.PollReplies? && !a.AsksCancel? && !a.CancelFails?
    requires !a.Restarts? && !a.IsKilled?
    ensures Step(s, a).memory.jobs == s.memory.jobs && Step(s, a).log == s.log
  {
    hide Pipeline.Step, Pipeline.Enabled, Pipeline.Init, WithPoll, Inserted, Replied, Flagged, Restored, FirstPolls, WellKeyed,
         Polling, Guarded, Tracks, Logged, Killed;
    match a
    case StartContinues(st) => PollingKeepsJobs(s.memory, st.jobId, st.url);
    case TimerFires(j) => PollingKeepsJobs(s.memory, j, s.memory.timers[j]);
    case _ =>
  }

  lemma PollingKeepsJobs(m: Memory, jobId: string, url: string)
    ensures Polling(m, jobId, url).jobs == m.jobs && Guarded(m, jobId, url).jobs == m.jobs
  {
  }

  lemma OtherComesFrom(s: State, a: Action)
    requires Enabled(s, a) && !a.StartReplies? && !a.PollReplies? && !a.AsksCancel? && !a.CancelFails?
    requires !a.Restarts? && !a.IsKilled?
    ensures AllComeFrom(s, a, Step(s, a))
  {
    hide ComeFrom, Step, Enabled;
    var t := Step(s, a);
    OtherKeepsTables(s, a);
    forall table | Known(t, table) ensures ComeFrom(s, a, table) {
      KnownComeFrom(s, a, table);
    }
  }

  // ---- Ids that are still free ----

  predicate IsFree(t: Table, j: string) {
    forall u :: u in t ==> t[u].jobId != j
  }

  /** A job whose start has not been answered yet is in no table. */
  ghost predicate Unborn(s: State) {
    forall st, t :: st in s.starts && st.Created? && Known(s, t) ==> IsFree(t, st.jobId)
  }

  lemma ForeignIdIsFree(s: State, t: Table, j: string)
    requires Inv(s) && Known(s, t) && j !in s.rows
    ensures IsFree(t, j)
  {
    assert TableOk(s.rows, t);
    forall u | u in t ensures t[u].jobId != j {
      TrackedIsJobOf(s.rows, t, u);
    }
  }

  lemma StartsAreDistinct(s: State, st: Start, other: Start)
    requires Inv(s) && st in s.starts && other in s.starts && st.jobId == other.jobId
    ensures st == other
  {
  }

  lemma StaysFree(s: State, a: Action, t: Table, j: string)
    requires ComeFrom(s, a, t) && (forall earlier :: Known(s, earlier) ==> IsFree(earlier, j))
    requires a.StartReplies? ==> a.start.jobId != j
    ensures IsFree(t, j)
  {
    forall u | u in t ensures t[u].jobId != j {
      if HeldBefore(s, u, t[u]) {
        var earlier: Table :| Known(s, earlier) && u in earlier
                              && earlier[u].jobId == t[u].jobId && earlier[u].startedAt == t[u].startedAt;
        assert IsFree(earlier, j);
      }
    }
  }

  /** Which starts wait for an answer behind a step. */
  lemma StartsBehind(s: State, a: Action, st: Start)
    requires Enabled(s, a) && st in Step(s, a).starts && st.Created?
    ensures st in s.starts || (a.Posts? && st.jobId == a.jobId && a.jobId !in s.rows)
    ensures a.StartReplies? ==> st != a.start
  {
    hide Inserted, Replied, Flagged, Restored, Polling, Guarded, Pipeline.Step, Pipeline.Enabled, WithPoll, WellKeyed, FirstPolls;
  }

  lemma StepKeepsUnborn(s: State, a: Action)
    requires Inv(s) && Enabled(s, a) && Unborn(s)
    ensures Unborn(Step(s, a))
  {
    hide Inv, Enabled, Step, ComeFrom, IsFree, Known;
    StepComesFrom(s, a);
    var t := Step(s, a);
    forall st, table | st in t.starts && st.Created? && Known(t, table) ensures IsFree(table, st.jobId) {
      StartsBehind(s, a, st);
      if st in s.starts {
        if a.StartReplies? && a.start.jobId == st.jobId {
          StartRepliesIs(s, a);
          StartsAreDistinct(s, st, a.start);
          assert false;
        }
        StaysFree(s, a, table, st.jobId);
      } else {
        forall earlier | Known(s, earlier) ensures IsFree(earlier, st.jobId) {
          ForeignIdIsFree(s, earlier, st.jobId);
        }
        StaysFree(s, a, table, st.jobId);
      }
    }
  }

  lemma StartRepliesIs(s: State, a: Action)
    requires Enabled(s, a) && a.StartReplies?
    ensures a.start in s.starts && a.start.Created?
  {
  }

  lemma {:induction false} RunKeepsUnborn(s: State, acts: seq<Action>)
    requires Inv(s) && Unborn(s) && IsRun(s, acts)
    ensures Unborn(Exec(s, acts))
    decreases acts
  {
    hide Inv, Unborn, Enabled, Step;
    if acts != [] {
      StepKeepsInv(s, acts[0]);
      StepKeepsUnborn(s, acts[0]);
      RunKeepsUnborn(Step(s, acts[0]), acts[1..]);
    }
  }

  lemma ReachableIsUnborn(s: State)
    requires Reachable(s)
    ensures Unborn(s)
  {
    hide Inv, IsRun, Exec, IsFree;
    var acts :| IsRun(INIT, acts) && Exec(INIT, acts) == s;
    InitHolds();
    RunKeepsUnborn(INIT, acts);
  }

  // ---- The time of a job never changes ----

  /** The job `j` is started, or is not starting any more, and every table that
      holds it has the time `d`. */
  ghost predicate Dated(s: State, j: string, d: nat) {
    && j in s.rows
    && (forall st :: st in s.starts && st.jobId == j ==> st.InTable?)
    && (forall t :: Known(s, t) ==> IsDated(t, j, d))
  }

  predicate IsDated(t: Table, j: string, d: nat) {
    forall u :: u in t && t[u].jobId == j ==> t[u].startedAt == d
  }

  lemma StaysDated(s: State, a: Action, t: Table, j: string, d: nat)
    requires ComeFrom(s, a, t) && (forall earlier :: Known(s, earlier) ==> IsDated(earlier, j, d))
    requires a.StartReplies? && a.start.jobId == j ==> a.now == d
    ensures IsDated(t, j, d)
  {
    forall u | u in t && t[u].jobId == j ensures t[u].startedAt == d {
      if HeldBefore(s, u, t[u]) {
        var earlier: Table :| Known(s, earlier) && u in earlier
                              && earlier[u].jobId == t[u].jobId && earlier[u].startedAt == t[u].startedAt;
        assert IsDated(earlier, j, d);
      }
    }
  }

  lemma RowsStay(s: State, a: Action, j: string)
    requires Enabled(s, a) && j in s.rows
    ensures j in Step(s, a).rows
  {
    hide Inserted, Replied, Flagged, Restored, Polling, Guarded, Pipeline.Step, Pipeline.Enabled, WithPoll, WellKeyed, FirstPolls;
  }

  lemma StepKeepsDated(s: State, a: Action, j: string, d: nat)
    requires Inv(s) && Enabled(s, a) && Dated(s, j, d)
    ensures Dated(Step(s, a), j, d)
  {
    hide Inv, Enabled, Step, ComeFrom, IsDated, Known;
    StepComesFrom(s, a);
    RowsStay(s, a, j);
    var t := Step(s, a);
    if a.StartReplies? {
      StartRepliesIs(s, a);
    }
    forall table | Known(t, table) ensures IsDated(table, j, d) {
      StaysDated(s, a, table, j, d);
    }
    forall st | st in t.starts && st.jobId == j ensures st.InTable? {
      if st.Created? {
        StartsBehind(s, a, st);
      }
    }
  }

  lemma {:induction false} RunKeepsDated(s: State, acts: seq<Action>, j: string, d: nat)
    requires Inv(s) && Dated(s, j, d) && IsRun(s, acts)
    ensures Dated(Exec(s, acts), j, d)
    decreases acts
  {
    hide Inv, Dated, Enabled, Step;
    if acts != [] {
      StepKeepsInv(s, acts[0]);
      StepKeepsDated(s, acts[0], j, d);
      RunKeepsDated(Step(s, acts[0]), acts[1..], j, d);
    }
  }

  lemma StartIsInRows(s: State, st: Start)
    requires Inv(s) && st in s.starts
    ensures st.jobId in s.rows
  {
    assert StartOk(s.rows, s.memory.jobs, s.memory.timers, st);
  }

  /** The insertion itself gives the job its time. */
  lemma InsertionIsDated(s: State, st: Start, d: nat)
    requires Inv(s) && Unborn(s) && Enabled(s, StartReplies(st, d))
    ensures Dated(Step(s, StartReplies(st, d)), st.jobId, d)
  {
    hide Inv, Step, Enabled, ComeFrom, IsDated, IsFree, Known;
    var a := StartReplies(st, d);
    var t := Step(s, a);
    StartRepliesIs(s, a);
    StepComesFrom(s, a);
    StartIsInRows(s, st);
    RowsStay(s, a, st.jobId);
    forall table | Known(s, table) ensures IsDated(table, st.jobId, d) {
      FreeIsDated(table, st.jobId, d);
    }
    forall table | Known(t, table) ensures IsDated(table, st.jobId, d) {
      StaysDated(s, a, table, st.jobId, d);
    }
    forall other | other in t.starts && other.jobId == st.jobId ensures other.InTable? {
      if other.Created? {
        StartsBehind(s, a, other);
        StartsAreDistinct(s, other, st);
      }
    }
  }

  lemma FreeIsDated(t: Table, j: string, d: nat)
    requires IsFree(t, j)
    ensures IsDated(t, j, d)
  {
  }

  /** A job that was inserted at `d`, whatever has happened since to its row, its
      polls, the worker and its storage: if storage still holds it when the worker
      is started again, it comes back as stored if and only if that is no more than
      24 hours after `d`. */
  lemma InsertedJobComesBackExactly(s: State, st: Start, d: nat, acts: seq<Action>, now: nat)
    requires Reachable(s) && Enabled(s, StartReplies(st, d)) && IsRun(Step(s, StartReplies(st, d)), acts)
    requires var t := Exec(Step(s, StartReplies(st, d)), acts);
             Enabled(t, Restarts(now)) && Tracks(t.stored, st.url, st.jobId)
    ensures var t := Exec(Step(s, StartReplies(st, d)), acts);
            var jobs := Step(t, Restarts(now)).memory.jobs;
            && t.stored[st.url].startedAt == d
            && (st.url in jobs <==> now <= d + 86400000)
            && (st.url in jobs ==> jobs[st.url] == t.stored[st.url])
  {
    hide Reachable, Inv, IsRun, Exec, Dated, Unborn;
    var t := Exec(Step(s, StartReplies(st, d)), acts);
    ReachableIsSound(s);
    ReachableIsUnborn(s);
    InsertionIsDated(s, st, d);
    StepKeepsInv(s, StartReplies(st, d));
    RunKeepsInv(Step(s, StartReplies(st, d)), acts);
    RunKeepsDated(Step(s, StartReplies(st, d)), acts, st.jobId, d);
    StoredIsDated(t, st.url, st.jobId, d);
    RestartKeepsExactly(t.stored, st.url, now);
  }

  lemma StoredIsDated(s: State, u: string, j: string, d: nat)
    requires Inv(s) && Dated(s, j, d) && Tracks(s.stored, u, j)
    ensures s.stored[u].startedAt == d
  {
    hide Inv;
    PathIsOk(s);
    assert Known(s, s.stored);
    assert IsDated(s.stored, j, d);
  }
}
