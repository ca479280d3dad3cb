/** What the extension shows agrees with the backend, for good: whole runs of the
    worker and the backend together, with late replies, replaced jobs and
    restarts. */
module ClientAgreement {
  import opened Text
  import opened JobRow
  import opened Worker
  import opened Extension
  import Pipeline

  // ---- Runs ----

  predicate IsRun(s: State, acts: seq<Action>)
    decreases acts
  {
    acts == [] || (Enabled(s, acts[0]) && IsRun(Step(s, acts[0]), acts[1..]))
  }

  function Exec(s: State, acts: seq<Action>): State
    requires IsRun(s, acts)
    decreases acts
  {
    if acts == [] then s else Exec(Step(s, acts[0]), acts[1..])
  }

  predicate KillsNobody(acts: seq<Action>) {
    forall k :: 0 <= k < |acts| ==> !acts[k].IsKilled?
  }

  lemma {:induction false} RunKeepsInv(s: State, acts: seq<Action>)
    requires Inv(s) && IsRun(s, acts)
    ensures Inv(Exec(s, acts))
    decreases acts
  {
    hide Inv, Enabled, Step;
    if acts != [] {
      StepKeepsInv(s, acts[0]);
      RunKeepsInv(Step(s, acts[0]), acts[1..]);
    }
  }

  /** Backend, worker, network and storage can get there from the start. */
  ghost predicate Reachable(s: State) {
    exists acts :: IsRun(INIT, acts) && Exec(INIT, acts) == s
  }

  lemma ReachableIsSound(s: State)
    requires Reachable(s)
    ensures Inv(s)
  {
    hide Inv, IsRun, Exec;
    var acts :| IsRun(INIT, acts) && Exec(INIT, acts) == s;
    InitHolds();
    RunKeepsInv(INIT, acts);
  }

  /** Wherever the worker awaits something: timers run exactly for the jobs in
      progress that are in the table, save those between insertion and
      `startPolling`; and what storage holds, or will hold when the snapshots on
      their way have landed, is the table in every field but progress. */
  lemma EveryAwaitPoint(acts: seq<Action>)
    requires IsRun(INIT, acts) && Exec(INIT, acts).up
    ensures var s := Exec(INIT, acts);
            && (forall j :: j in s.memory.timers ==> TimerOk(s.memory.jobs, j, s.memory.timers[j]))
            && (forall u :: u in s.memory.jobs && s.memory.jobs[u].status == Processing ==>
                  s.memory.jobs[u].jobId in s.memory.timers || InTable(s.memory.jobs[u].jobId, u) in s.starts)
            && SameButProgress(LastIssued(s.stored, s.memory.writes), s.memory.jobs)
  {
    InitHolds();
    RunKeepsInv(INIT, acts);
  }

  /** A worker that is down can always be restarted: what it stored is sound. */
  lemma RestartIsAlwaysPossible(acts: seq<Action>, now: nat)
    requires IsRun(INIT, acts) && !Exec(INIT, acts).up
    ensures Enabled(Exec(INIT, acts), Restarts(now))
  {
    InitHolds();
    RunKeepsInv(INIT, acts);
    var s := Exec(INIT, acts);
    assert TableOk(s.rows, s.stored);
    SoundTablesAreWellKeyed(s.rows, s.stored);
  }

  // ---- The backend behind a display ----

  predicate IsFinished(job: Job) {
    job.status != Processing
  }

  predicate SameOutcome(a: Job, b: Job) {
    a.status == b.status && a.downloadUrl == b.downloadUrl && a.error == b.error
  }

  function StatusBehind(shown: Shown): Status
    requires shown != Processing
  {
    match shown
    case Complete => Completed
    case Errored => Error
    case CancelledShown => Cancelled
  }

  lemma ExtendsChains(a: map<string, Pipeline.State>, b: map<string, Pipeline.State>, c: map<string, Pipeline.State>)
    requires Extends(a, b) && Extends(b, c)
    ensures Extends(a, c)
  {
  }

  lemma RowsAreSound(s: State)
    requires Inv(s)
    ensures RowsOk(s.rows)
  {
  }

  lemma StepExtends(s: State, a: Action)
    requires Inv(s) && Enabled(s, a)
    ensures Extends(s.rows, Step(s, a).rows)
  {
    hide Inv, RowsOk, Extends, Inserted, Replied, Flagged, Polling, Guarded, Restored, Kept, FirstPolls, WithPoll;
    hide Pipeline.Enabled, Pipeline.Step, Pipeline.Init;
    RowsAreSound(s);
    match a
    case BackendSteps(j, act) => BackendStepExtends(s.rows, j, act);
    case OtherClientPosts(j, url) => NewRowExtends(s.rows, j, url);
    case Posts(j, url) => NewRowExtends(s.rows, j, url);
    case _ => ExtendsItself(s.rows);
  }

  lemma ExtendsItself(rows: map<string, Pipeline.State>)
    ensures Extends(rows, rows)
  {
  }

  lemma {:induction false} RunExtends(s: State, acts: seq<Action>)
    requires Inv(s) && IsRun(s, acts)
    ensures Extends(s.rows, Exec(s, acts).rows)
    decreases acts
  {
    hide Inv, Enabled, Step, Extends;
    if acts == [] {
      ExtendsItself(s.rows);
    } else {
      var t := Step(s, acts[0]);
      StepExtends(s, acts[0]);
      StepKeepsInv(s, acts[0]);
      RunExtends(t, acts[1..]);
      ExtendsChains(s.rows, t.rows, Exec(t, acts[1..]).rows);
    }
  }

  /** A job shown as complete, failed or cancelled is in the matching terminal
      state in the backend and its row never changes again, whatever happens. */
  lemma ShownOutcomeIsFinal(s: State, u: string, acts: seq<Action>)
    requires Reachable(s) && u in s.memory.jobs && IsFinished(s.memory.jobs[u]) && IsRun(s, acts)
    ensures var j := s.memory.jobs[u].jobId;
            && j in s.rows && s.rows[j].row.status == StatusBehind(s.memory.jobs[u].status)
            && j in Exec(s, acts).rows && Exec(s, acts).rows[j].row == s.rows[j].row
  {
    hide Reachable, Inv, IsRun, Exec;
    ReachableIsSound(s);
    RunExtends(s, acts);
    EntryIsOk(s, u);
  }

  lemma RowIsSound(s: State, j: string)
    requires Inv(s) && j in s.rows
    ensures Pipeline.Inv(s.rows[j])
  {
  }

  /** What is shown is genuine: a complete job has the backend's URL, a failed one
      the backend's text, or a text of the extension's own in place of an empty
      one, and a cancelled one was cancelled by an accepted request. */
  lemma ShownOutcomeIsGenuine(s: State, u: string)
    requires Reachable(s) && u in s.memory.jobs
    ensures var job := s.memory.jobs[u];
            && job.jobId in s.rows
            && var row := s.rows[job.jobId].row;
            && (job.status == Complete <==> job.downloadUrl.Some?)
            && (job.status == Complete ==> job.downloadUrl == row.downloadUrl)
            && (job.status == Errored <==> job.error.Some?)
            && (job.status == Errored ==>
                  && row.error.Some?
                  && job.error.value == (if row.error.value == "" then "変換中にエラーが発生しました" else row.error.value))
            && (job.status == CancelledShown ==>
                  row.cancelRequested &&
                  exists c :: c in s.rows[job.jobId].calls && s.rows[job.jobId].calls[c] == Pipeline.AnsweredAccepted)
  {
    hide Reachable, Inv, Pipeline.AtPc;
    ReachableIsSound(s);
    EntryIsOk(s, u);
    var j := s.memory.jobs[u].jobId;
    RowIsSound(s, j);
    if IsFinished(s.memory.jobs[u]) {
      Pipeline.TerminalIsFinished(s.rows[j]);
    }
  }

  lemma OutcomeIsTheRows(a: Job, b: Job, row: Row)
    requires Agrees(a, row) && Agrees(b, row) && IsFinished(a) && IsFinished(b)
    ensures SameOutcome(a, b)
  {
  }

  /** Two finished displays of one job never differ, even across restarts. */
  lemma DisplaysAgree(s: State, u: string, acts: seq<Action>)
    requires Reachable(s) && u in s.memory.jobs && IsFinished(s.memory.jobs[u]) && IsRun(s, acts)
    ensures var t := Exec(s, acts);
            Tracks(t.memory.jobs, u, s.memory.jobs[u].jobId) && IsFinished(t.memory.jobs[u]) ==>
              SameOutcome(s.memory.jobs[u], t.memory.jobs[u])
  {
    hide Reachable, Inv, IsRun, Exec, Agrees, IsFinished, SameOutcome;
    ReachableIsSound(s);
    var t := Exec(s, acts);
    var j := s.memory.jobs[u].jobId;
    ShownOutcomeIsFinal(s, u, acts);
    RunKeepsInv(s, acts);
    EntryIsOk(s, u);
    if Tracks(t.memory.jobs, u, j) && IsFinished(t.memory.jobs[u]) {
      EntryIsOk(t, u);
      OutcomeIsTheRows(s.memory.jobs[u], t.memory.jobs[u], s.rows[j].row);
    }
  }

  // ---- Within one life of the worker ----

  /** Wherever the job is in the table, it is shown as finished. */
  ghost predicate ShownFinished(jobs: Table, j: string) {
    forall u :: Tracks(jobs, u, j) ==> IsFinished(jobs[u])
  }

  /** The job is known to the backend, shown as finished, and nobody starts it. */
  ghost predicate Settled(s: State, j: string) {
    j in s.rows && !IsStarting(s.starts, j) && ShownFinished(s.memory.jobs, j)
  }

  lemma FinishedIsSettled(s: State, u: string)
    requires Inv(s) && u in s.memory.jobs && IsFinished(s.memory.jobs[u])
    ensures Settled(s, s.memory.jobs[u].jobId)
  {
    var j := s.memory.jobs[u].jobId;
    TrackedIsJobOf(s.rows, s.memory.jobs, u);
    SoundTablesAreWellKeyed(s.rows, s.memory.jobs);
    forall st | st in s.starts ensures st.jobId != j {
      assert StartOk(s.rows, s.memory.jobs, s.memory.timers, st);
    }
  }

  lemma OtherInsertKeepsFinished(m: Memory, jobId: string, url: string, now: nat, j: string)
    requires ShownFinished(m.jobs, j) && jobId != j
    ensures ShownFinished(Inserted(m, jobId, url, now).jobs, j)
  {
    var t := Inserted(m, jobId, url, now);
    forall u | Tracks(t.jobs, u, j) ensures IsFinished(t.jobs[u]) {
      assert Tracks(m.jobs, u, j);
    }
  }

  lemma ReplyKeepsFinished(m: Memory, jobId: string, url: string, row: Row, j: string)
    requires ShownFinished(m.jobs, j)
    ensures ShownFinished(Replied(m, jobId, url, row).jobs, j)
  {
    var t := Replied(m, jobId, url, row);
    forall u | Tracks(t.jobs, u, j) ensures IsFinished(t.jobs[u]) {
      assert Tracks(m.jobs, u, j);
    }
  }

  lemma FlagKeepsFinished(m: Memory, jobId: string, url: string, flag: bool, j: string)
    requires ShownFinished(m.jobs, j)
    ensures ShownFinished(Flagged(m, jobId, url, flag).jobs, j)
  {
    var t := Flagged(m, jobId, url, flag);
    forall u | Tracks(t.jobs, u, j) ensures IsFinished(t.jobs[u]) {
      assert Tracks(m.jobs, u, j);
    }
  }

  lemma SettledStays(s: State, a: Action, j: string)
    requires Settled(s, j) && s.up && Enabled(s, a) && !a.IsKilled?
    ensures Settled(Step(s, a), j) && Step(s, a).up
  {
    hide ShownFinished, Inserted, Replied, Flagged, Restored, Kept, FirstPolls, WithPoll, Tracks;
    hide Pipeline.Enabled, Pipeline.Step;
    match a
    case StartReplies(st, now) => OtherInsertKeepsFinished(s.memory, st.jobId, st.url, now, j);
    case PollReplies(p) => ReplyKeepsFinished(s.memory, p.jobId, p.url, p.row, j);
    case AsksCancel(i, u) => FlagKeepsFinished(s.memory, i, u, true, j);
    case CancelFails(c) => FlagKeepsFinished(s.memory, c.jobId, c.url, false, j);
    case _ =>
  }

  lemma {:induction false} RunKeepsSettled(s: State, acts: seq<Action>, j: string)
    requires Settled(s, j) && s.up && IsRun(s, acts) && KillsNobody(acts)
    ensures Settled(Exec(s, acts), j) && Exec(s, acts).up
    decreases acts
  {
    hide Settled, Enabled, Step;
    if acts != [] {
      SettledStays(s, acts[0], j);
      RunKeepsSettled(Step(s, acts[0]), acts[1..], j);
    }
  }

  /** While the worker lives, what it shows for a finished job never changes:
      not under overlapping polls, nor replies out of order, nor cancels. */
  lemma DisplayNeverChanges(s: State, u: string, acts: seq<Action>)
    requires Reachable(s) && s.up && u in s.memory.jobs && IsFinished(s.memory.jobs[u])
    requires IsRun(s, acts) && KillsNobody(acts)
    ensures var t := Exec(s, acts);
            Tracks(t.memory.jobs, u, s.memory.jobs[u].jobId) ==> SameOutcome(s.memory.jobs[u], t.memory.jobs[u])
  {
    hide Reachable, Inv, IsRun, Exec, IsFinished, SameOutcome;
    ReachableIsSound(s);
    FinishedIsSettled(s, u);
    RunKeepsSettled(s, acts, s.memory.jobs[u].jobId);
    DisplaysAgree(s, u, acts);
  }

  /** What an entry of the table may turn into without a new start for its URL. */
  predicate SameEntry(jobs: Table, later: Table, u: string) {
    u in jobs && u in later && later[u].jobId == jobs[u].jobId && SameOutcome(jobs[u], later[u])
  }

  lemma FlagKeepsEntry(m: Memory, jobId: string, url: string, flag: bool, u: string)
    requires u in m.jobs
    ensures SameEntry(m.jobs, Flagged(m, jobId, url, flag).jobs, u)
  {
  }

  lemma ReplyKeepsEntry(m: Memory, p: Poll, u: string)
    requires u in m.jobs && p.Answered?
    ensures SameEntry(m.jobs, Replied(m, p.jobId, p.url, p.row).jobs, u) ||
            (u in Replied(m, p.jobId, p.url, p.row).jobs && p.jobId == m.jobs[u].jobId &&
             Replied(m, p.jobId, p.url, p.row).jobs[u].jobId == p.jobId && IsTerminal(p.row.status))
  {
  }

  /** An entry of the table is replaced only by a start for its URL, and its
      outcome changes only by a reply to a poll of that very job that reports
      the backend's final row. A reply to a poll of a replaced job leaves the
      whole memory as it is. */
  lemma OnlyItsOwnReplyFinishesAJob(s: State, a: Action, u: string)
    requires Reachable(s) && s.up && Enabled(s, a) && !a.IsKilled? && u in s.memory.jobs
    ensures var t := Step(s, a);
            || SameEntry(s.memory.jobs, t.memory.jobs, u)
            || (a.StartReplies? && a.start.url == u && Tracks(t.memory.jobs, u, a.start.jobId))
            || (a.PollReplies? && Tracks(t.memory.jobs, u, a.poll.jobId) && a.poll.jobId == s.memory.jobs[u].jobId
                && a.poll.jobId in s.rows && IsTerminal(a.poll.row.status) && a.poll.row == s.rows[a.poll.jobId].row)
    ensures a.PollReplies? && !Tracks(s.memory.jobs, a.poll.url, a.poll.jobId) ==> Step(s, a).memory == s.memory
  {
    hide Reachable, Inv, Inserted, Replied, Flagged, Polling, Guarded, Restored, Kept, FirstPolls, WithPoll, SameEntry;
    ReachableIsSound(s);
    hide Pipeline.Enabled, Pipeline.Step;
    match a
    case PollReplies(p) =>
      PollIsOk(s, p);
      ReplyKeepsEntry(s.memory, p, u);
      LateReplyToReplaced(s, p);
    case AsksCancel(j, url) =>
      FlagKeepsEntry(s.memory, j, url, true, u);
    case CancelFails(c) =>
      FlagKeepsEntry(s.memory, c.jobId, c.url, false, u);
    case StartReplies(st, now) =>
      InsertKeepsEntry(s.memory, st.jobId, st.url, now, u);
    case _ =>
      OthersLeaveTheTable(s, a);
      EntryIsItself(s.memory.jobs, u);
  }

  lemma LateReplyToReplaced(s: State, p: Poll)
    requires Enabled(s, PollReplies(p))
    ensures !Tracks(s.memory.jobs, p.url, p.jobId) ==> Step(s, PollReplies(p)).memory == s.memory
  {
  }

  lemma OthersLeaveTheTable(s: State, a: Action)
    requires s.up && Enabled(s, a) && !a.IsKilled?
    requires !a.PollReplies? && !a.AsksCancel? && !a.CancelFails? && !a.StartReplies?
    ensures Step(s, a).memory.jobs == s.memory.jobs
  {
    hide Tracks, WellKeyed, Inserted, Replied, Flagged, Restored, Kept, FirstPolls, WithPoll, Pipeline.Enabled, Pipeline.Step;
  }

  lemma PollIsOk(s: State, p: Poll)
    requires Inv(s) && p in s.polls
    ensures PollOk(s.rows, p)
  {
  }

  lemma EntryIsOk(s: State, u: string)
    requires Inv(s) && u in s.memory.jobs
    ensures JobOk(s.rows, u, s.memory.jobs[u])
  {
  }

  lemma EntryIsItself(jobs: Table, u: string)
    requires u in jobs
    ensures SameEntry(jobs, jobs, u)
  {
  }

  lemma InsertKeepsEntry(m: Memory, jobId: string, url: string, now: nat, u: string)
    requires u in m.jobs
    ensures var t := Inserted(m, jobId, url, now);
            if u == url then Tracks(t.jobs, u, jobId) else SameEntry(m.jobs, t.jobs, u)
  {
  }

  /** A late reply to a finished job moves its progress, which is why progress is
      not part of the outcome, and nothing else. */
  lemma LateReplyMovesOnlyProgress(s: State, p: Poll)
    requires Enabled(s, PollReplies(p)) && !IsTerminal(p.row.status) && Tracks(s.memory.jobs, p.url, p.jobId)
    ensures Step(s, PollReplies(p)).memory ==
            s.memory.(jobs := s.memory.jobs[p.url := s.memory.jobs[p.url].(progress := p.row.progress)])
  {
  }

  // ---- Restarts ----

  /** The worker dies when storage holds `m`, one of the snapshots issued so far. */
  function Crashed(s: State, m: Table): State {
    Killed(s).(stored := m)
  }

  lemma CrashKeepsInv(s: State, m: Table)
    requires Inv(s) && m in s.log
    ensures Inv(Crashed(s, m)) && WellKeyed(m)
  {
    KillKeepsInv(s);
    assert TableOk(s.rows, m);
    SoundTablesAreWellKeyed(s.rows, m);
  }

  /** Every reply under way for the finished job reports it as finished. */
  predicate Fed(s: State, j: string) {
    && j in s.rows && IsTerminal(s.rows[j].row.status)
    && forall p :: p in s.polls && p.Answered? && p.jobId == j ==> IsTerminal(p.row.status)
  }

  lemma FedStays(s: State, a: Action, j: string)
    requires Fed(s, j) && Enabled(s, a) && Inv(s) && s.up
    ensures Fed(Step(s, a), j)
  {
    hide Inv, Inserted, Replied, Flagged, Polling, Guarded, Restored, Kept;
    StepExtends(s, a);
  }

  lemma StaysUp(s: State, a: Action)
    requires s.up && Enabled(s, a) && !a.IsKilled?
    ensures Step(s, a).up
  {
  }

  lemma {:induction false} RunKeepsFed(s: State, acts: seq<Action>, j: string)
    requires Fed(s, j) && s.up && Inv(s) && IsRun(s, acts) && KillsNobody(acts)
    ensures Fed(Exec(s, acts), j)
    decreases acts
  {
    hide Fed, Enabled, Step, Inv;
    if acts != [] {
      FedStays(s, acts[0], j);
      StaysUp(s, acts[0]);
      StepKeepsInv(s, acts[0]);
      RunKeepsFed(Step(s, acts[0]), acts[1..], j);
    }
  }

  /** `r` is the worker after it was restarted from the snapshot `m`. */
  predicate RestartsFrom(s: State, m: Table, now: nat, r: State) {
    WellKeyed(m) && r == Step(Crashed(s, m), Restarts(now))
  }

  lemma RestartIsFed(s: State, m: Table, now: nat, r: State, j: string)
    requires Inv(s) && m in s.log && RestartsFrom(s, m, now, r)
    requires j in s.rows && IsTerminal(s.rows[j].row.status)
    ensures Fed(r, j) && r.up && r.rows == s.rows && Inv(r)
  {
    hide Inv, Kept, TimersFor, WellKeyed;
    CrashKeepsInv(s, m);
    StepKeepsInv(Crashed(s, m), Restarts(now));
  }

  lemma PollHitsItsUrl(s: State, p: Poll, u: string)
    requires Inv(s) && Enabled(s, PollReplies(p)) && Tracks(s.memory.jobs, u, p.jobId)
    ensures p.url == u
  {
    hide Inv;
    PollIsOk(s, p);
    EntryIsOk(s, u);
  }

  lemma FedReplyFinishes(s: State, p: Poll, u: string, j: string)
    requires Fed(s, j) && Enabled(s, PollReplies(p)) && p.jobId == j && p.url == u && Tracks(s.memory.jobs, u, j)
    ensures Tracks(Step(s, PollReplies(p)).memory.jobs, u, j)
    ensures IsFinished(Step(s, PollReplies(p)).memory.jobs[u])
  {
  }

  lemma OutcomeOf(s: State, u: string)
    requires Inv(s) && u in s.memory.jobs && IsFinished(s.memory.jobs[u])
    ensures var j := s.memory.jobs[u].jobId;
            j in s.rows && Agrees(s.memory.jobs[u], s.rows[j].row) && IsTerminal(s.rows[j].row.status)
  {
    hide Inv;
    EntryIsOk(s, u);
  }

  /** Restarting from any snapshot that was ever issued: whatever happens then
      until a poll of the job succeeds, the reply brings back the outcome that
      was shown before. */
  lemma RestartConverges(s: State, u: string, m: Table, now: nat, r: State, acts: seq<Action>, t: State, p: Poll)
    requires Reachable(s) && u in s.memory.jobs && IsFinished(s.memory.jobs[u])
    requires m in s.log && RestartsFrom(s, m, now, r)
    requires IsRun(r, acts) && KillsNobody(acts) && t == Exec(r, acts)
    requires Enabled(t, PollReplies(p)) && p.jobId == s.memory.jobs[u].jobId && Tracks(t.memory.jobs, u, p.jobId)
    ensures var v := Step(t, PollReplies(p));
            Tracks(v.memory.jobs, u, p.jobId) && SameOutcome(s.memory.jobs[u], v.memory.jobs[u])
  {
    hide Reachable, Inv, IsRun, Exec, Fed, Step, RestartsFrom, Enabled, SameOutcome, IsFinished, Agrees, Extends, KillsNobody;
    ReachableIsSound(s);
    var j := p.jobId;
    var v := Step(t, PollReplies(p));
    OutcomeOf(s, u);
    RestartIsFed(s, m, now, r, j);
    RunKeepsFed(r, acts, j);
    RunKeepsInv(r, acts);
    PollHitsItsUrl(t, p, u);
    FedReplyFinishes(t, p, u, j);
    RunExtends(r, acts);
    StepKeepsInv(t, PollReplies(p));
    StepExtends(t, PollReplies(p));
    ExtendsChains(r.rows, t.rows, v.rows);
    FinalRowStays(r.rows, v.rows, j);
    OutcomeOf(v, u);
    OutcomeIsTheRows(s.memory.jobs[u], v.memory.jobs[u], s.rows[j].row);
  }

  lemma FinalRowStays(rows: map<string, Pipeline.State>, later: map<string, Pipeline.State>, j: string)
    requires Extends(rows, later) && j in rows && IsTerminal(rows[j].row.status)
    ensures j in later && later[j].row == rows[j].row
  {
  }

  /** And such a poll goes out at once: right after a restart from a snapshot
      that still holds the job, either the old outcome is shown already or a
      poll is waiting, and its round trip brings the outcome back. */
  lemma OnePollAfterRestart(s: State, u: string, m: Table, now: nat, r: State)
    requires Reachable(s) && u in s.memory.jobs && IsFinished(s.memory.jobs[u])
    requires m in s.log && Tracks(m, u, s.memory.jobs[u].jobId) && now <= m[u].startedAt + 86400000 && RestartsFrom(s, m, now, r)
    ensures var j := s.memory.jobs[u].jobId;
            && Tracks(r.memory.jobs, u, j)
            && (SameOutcome(s.memory.jobs[u], r.memory.jobs[u]) || RoundTripRestores(r, j, u, s.memory.jobs[u]))
  {
    hide Reachable, Inv, RestartsFrom, RoundTripRestores, SameOutcome, Agrees, Fed;
    ReachableIsSound(s);
    var j := s.memory.jobs[u].jobId;
    OutcomeOf(s, u);
    RestartIsFed(s, m, now, r, j);
    RestartBringsBack(s, m, now, r, u);
    JobAgrees(r, u);
    if IsFinished(m[u]) {
      OutcomeIsTheRows(s.memory.jobs[u], m[u], s.rows[j].row);
    } else {
      FreshReplyRestores(r, j, u, s.memory.jobs[u]);
    }
  }

  lemma JobAgrees(s: State, u: string)
    requires Inv(s) && u in s.memory.jobs
    ensures s.memory.jobs[u].jobId in s.rows && Agrees(s.memory.jobs[u], s.rows[s.memory.jobs[u].jobId].row)
  {
    hide Inv;
    EntryIsOk(s, u);
  }

  lemma RestartBringsBack(s: State, m: Table, now: nat, r: State, u: string)
    requires RestartsFrom(s, m, now, r) && u in m && !IsStale(m[u], now)
    ensures u in r.memory.jobs && r.memory.jobs[u] == m[u]
    ensures m[u].status == Processing ==> Waiting(m[u].jobId, u) in r.polls
  {
    var kept := Kept(m, now);
    assert u in kept && kept[u] == m[u];
    if m[u].status == Processing {
      assert u in InProgress(kept);
      assert Waiting(m[u].jobId, u) in FirstPolls(kept);
    }
  }

  /** A poll of the job is waiting at `r`; once it is served and answered the job
      is shown with the outcome of `before`. */
  predicate RoundTripRestores(r: State, j: string, u: string, before: Job) {
    && Enabled(r, ServerReads(Waiting(j, u)))
    && var t := Step(r, ServerReads(Waiting(j, u)));
       var reply := PollReplies(Answered(j, u, r.rows[j].row));
       && Enabled(t, reply)
       && Tracks(Step(t, reply).memory.jobs, u, j)
       && SameOutcome(before, Step(t, reply).memory.jobs[u])
  }

  lemma FreshReplyRestores(r: State, j: string, u: string, before: Job)
    requires Tracks(r.memory.jobs, u, j) && r.memory.jobs[u].status == Processing && Waiting(j, u) in r.polls
    requires j in r.rows && IsTerminal(r.rows[j].row.status) && Agrees(r.memory.jobs[u], r.rows[j].row)
    requires Agrees(before, r.rows[j].row) && IsFinished(before)
    ensures RoundTripRestores(r, j, u, before)
  {
    var row := r.rows[j].row;
    var t := Step(r, ServerReads(Waiting(j, u)));
    assert Answered(j, u, row) in t.polls;
    var v := Step(t, PollReplies(Answered(j, u, row)));
    assert v.memory.jobs[u] == Told(r.memory.jobs[u], row);
    OutcomeIsTheRows(before, v.memory.jobs[u], row);
  }
}
