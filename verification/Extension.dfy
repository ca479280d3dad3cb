/** The service worker as a client of the job protocol: the backend's jobs, the
    worker's memory, the requests in flight between them and the browser's
    storage, stepped in any order. Replies may be late, overtake each other or
    get lost, and the worker may be killed between any two steps. */
module Extension {
  import opened Text
  import opened JobRow
  import opened Worker
  import Pipeline

  /** A poll whose request is out, and one whose reply is under way. */
  datatype Poll = Waiting(jobId: string, url: string) | Answered(jobId: string, url: string, row: Row)

  /** A start whose reply is under way, and one that has entered its job in the
      table and awaits storage before it starts to poll. */
  datatype Start = Created(jobId: string, url: string) | InTable(jobId: string, url: string)

  datatype Cancel = Cancel(jobId: string, url: string)

  /** `stored` is what storage holds, `memory.writes` are the snapshots on their
      way to it, and `log` are all snapshots ever issued. */
  datatype State = State(
    rows: map<string, Pipeline.State>,
    up: bool,
    memory: Memory,
    polls: multiset<Poll>,
    starts: set<Start>,
    cancels: multiset<Cancel>,
    stored: Table,
    log: set<Table>)

  const NO_MEMORY: Memory := Memory(map[], map[], [])

  const INIT: State := State(map[], true, NO_MEMORY, multiset{}, {}, multiset{}, map[], {map[]})

  datatype Action =
    | BackendSteps(jobId: string, act: Pipeline.Action)
    | OtherClientPosts(jobId: string, url: string)
    | Posts(jobId: string, url: string)
    | StartReplies(start: Start, now: nat)
    | StartIsLost(start: Start)
    | StartContinues(start: Start)
    | TimerFires(jobId: string)
    | ServerReads(poll: Poll)
    | PollReplies(poll: Poll)
    | PollIsLost(poll: Poll)
    | AsksCancel(jobId: string, url: string)
    | CancelSucceeds(cancel: Cancel)
    | CancelFails(cancel: Cancel)
    | WriteLands
    | IsKilled
    | Restarts(now: nat)

  predicate Enabled(s: State, a: Action) {
    match a
    case BackendSteps(j, act) => j in s.rows && Pipeline.Enabled(s.rows[j], act)
    case OtherClientPosts(j, _) => j !in s.rows
    case Posts(j, _) => s.up && j !in s.rows
    case StartReplies(st, _) => st.Created? && st in s.starts
    case StartIsLost(st) => st.Created? && st in s.starts
    case StartContinues(st) => st.InTable? && st in s.starts
    case TimerFires(j) => j in s.memory.timers
    case ServerReads(p) => p.Waiting? && p in s.polls && p.jobId in s.rows
    case PollReplies(p) => p.Answered? && p in s.polls
    case PollIsLost(p) => p in s.polls
    case AsksCancel(j, u) => Tracks(s.memory.jobs, u, j) && s.memory.jobs[u].status == Processing
    case CancelSucceeds(c) => c in s.cancels
    case CancelFails(c) => c in s.cancels
    case WriteLands => s.memory.writes != []
    case IsKilled => s.up
    case Restarts(_) => !s.up && WellKeyed(s.stored)
  }

  /** Snapshots issued by a stretch of code join the log. */
  function Logged(s: State, m: Memory): State {
    s.(memory := m, log := if m.writes == [] then s.log else s.log + {m.writes[|m.writes| - 1]})
  }

  function FirstPolls(jobs: Table): multiset<Poll> {
    multiset(set u | u in InProgress(jobs) :: Waiting(jobs[u].jobId, u))
  }

  function Step(s: State, a: Action): State
    requires Enabled(s, a)
  {
    match a
    case BackendSteps(j, act) => s.(rows := s.rows[j := Pipeline.Step(s.rows[j], act)])
    case OtherClientPosts(j, u) => s.(rows := s.rows[j := Pipeline.Init(u)])
    case Posts(j, u) => s.(rows := s.rows[j := Pipeline.Init(u)], starts := s.starts + {Created(j, u)})
    case StartReplies(st, now) =>
      Logged(s, Inserted(s.memory, st.jobId, st.url, now)).(starts := s.starts - {st} + {InTable(st.jobId, st.url)})
    case StartIsLost(st) => s.(starts := s.starts - {st})
    case StartContinues(st) =>
      s.(memory := Polling(s.memory, st.jobId, st.url), starts := s.starts - {st},
         polls := WithPoll(s, st.jobId, st.url))
    case TimerFires(j) =>
      var u := s.memory.timers[j];
      s.(memory := Guarded(s.memory, j, u), polls := WithPoll(s, j, u))
    case ServerReads(p) =>
      s.(polls := s.polls - multiset{p} + multiset{Answered(p.jobId, p.url, s.rows[p.jobId].row)})
    case PollReplies(p) =>
      Logged(s, Replied(s.memory, p.jobId, p.url, p.row)).(polls := s.polls - multiset{p})
    case PollIsLost(p) => s.(polls := s.polls - multiset{p})
    case AsksCancel(j, u) =>
      Logged(s, Flagged(s.memory, j, u, true)).(cancels := s.cancels + multiset{Cancel(j, u)})
    case CancelSucceeds(c) => s.(cancels := s.cancels - multiset{c})
    case CancelFails(c) => Logged(s, Flagged(s.memory, c.jobId, c.url, false)).(cancels := s.cancels - multiset{c})
    case WriteLands => s.(stored := s.memory.writes[0], memory := s.memory.(writes := s.memory.writes[1..]))
    case IsKilled => Killed(s)
    case Restarts(now) =>
      Logged(s, Restored(s.stored, now)).(up := true, polls := FirstPolls(Kept(s.stored, now)))
  }

  /** A poll goes out only past the guard. */
  function WithPoll(s: State, jobId: string, url: string): multiset<Poll> {
    if Tracks(s.memory.jobs, url, jobId) then s.polls + multiset{Waiting(jobId, url)} else s.polls
  }

  /** Memory, requests and unwritten snapshots die with the worker. */
  function Killed(s: State): State {
    s.(up := false, memory := NO_MEMORY, polls := multiset{}, starts := {}, cancels := multiset{})
  }

  // ---- The invariant ----

  /** A job that is shown as finished is finished, with the same outcome, in the
      backend. */
  predicate Agrees(job: Job, row: Row) {
    match job.status
    case Processing => job.downloadUrl == None && job.error == None
    case Complete => row.status == Completed && job.downloadUrl == row.downloadUrl && job.error == None
    case Errored => row.status == Error && job.error == Some(ErrorShown(row.error)) && job.downloadUrl == None
    case CancelledShown => row.status == Cancelled && job.downloadUrl == None && job.error == None
  }

  predicate IsJobOf(rows: map<string, Pipeline.State>, jobId: string, url: string) {
    jobId in rows && rows[jobId].row.arxivUrl == url
  }

  predicate JobOk(rows: map<string, Pipeline.State>, url: string, job: Job) {
    job.arxivUrl == url && IsJobOf(rows, job.jobId, url) && Agrees(job, rows[job.jobId].row)
  }

  predicate TableOk(rows: map<string, Pipeline.State>, jobs: Table) {
    forall u :: u in jobs ==> JobOk(rows, u, jobs[u])
  }

  ghost predicate RowsOk(rows: map<string, Pipeline.State>) {
    forall j :: j in rows ==> Pipeline.Inv(rows[j])
  }

  predicate IsStarting(starts: set<Start>, jobId: string) {
    exists st :: st in starts && st.jobId == jobId
  }

  /** A reply that reports a finished job reports the row as it is for good. */
  predicate PollOk(rows: map<string, Pipeline.State>, p: Poll) {
    && IsJobOf(rows, p.jobId, p.url)
    && (p.Answered? && IsTerminal(p.row.status) ==> p.row == rows[p.jobId].row)
  }

  predicate PollsOk(rows: map<string, Pipeline.State>, polls: multiset<Poll>, starts: set<Start>) {
    forall p :: p in polls ==> PollOk(rows, p) && !IsStarting(starts, p.jobId)
  }

  /** A job that is being started has no timer; once in the table it is still
      shown as in progress. */
  predicate StartOk(rows: map<string, Pipeline.State>, jobs: Table, timers: map<string, string>, st: Start) {
    && IsJobOf(rows, st.jobId, st.url)
    && st.jobId !in timers
    && (Tracks(jobs, st.url, st.jobId) ==> st.InTable? && jobs[st.url].status == Processing)
  }

  predicate StartsOk(rows: map<string, Pipeline.State>, jobs: Table, timers: map<string, string>, starts: set<Start>) {
    && (forall st :: st in starts ==> StartOk(rows, jobs, timers, st))
    && (forall st, other :: st in starts && other in starts && st.jobId == other.jobId ==> st == other)
  }

  predicate TimerOk(jobs: Table, jobId: string, url: string) {
    Tracks(jobs, url, jobId) && jobs[url].status == Processing
  }

  /** A timer belongs to a job in progress that is in the table, and every such
      job has one unless it is between insertion and `startPolling`. */
  predicate TimersOk(jobs: Table, timers: map<string, string>, starts: set<Start>) {
    && (forall j :: j in timers ==> TimerOk(jobs, j, timers[j]))
    && (forall u :: u in jobs && jobs[u].status == Processing ==>
          jobs[u].jobId in timers || InTable(jobs[u].jobId, u) in starts)
  }

  predicate LogOk(rows: map<string, Pipeline.State>, log: set<Table>) {
    forall t :: t in log ==> TableOk(rows, t)
  }

  predicate PathOk(log: set<Table>, stored: Table, writes: seq<Table>) {
    stored in log && forall k :: 0 <= k < |writes| ==> writes[k] in log
  }

  /** What storage will hold when every snapshot has landed. */
  function LastIssued(stored: Table, writes: seq<Table>): Table {
    if writes == [] then stored else writes[|writes| - 1]
  }

  predicate SameButProgress(a: Table, b: Table) {
    a.Keys == b.Keys && forall u :: u in a ==> a[u].(progress := 0) == b[u].(progress := 0)
  }

  predicate DownOk(s: State) {
    !s.up ==> s.memory == NO_MEMORY && s.polls == multiset{} && s.starts == {} && s.cancels == multiset{}
  }

  ghost predicate Inv(s: State) {
    && RowsOk(s.rows)
    && TableOk(s.rows, s.memory.jobs)
    && PollsOk(s.rows, s.polls, s.starts)
    && StartsOk(s.rows, s.memory.jobs, s.memory.timers, s.starts)
    && TimersOk(s.memory.jobs, s.memory.timers, s.starts)
    && LogOk(s.rows, s.log) && PathOk(s.log, s.stored, s.memory.writes)
    && (s.up ==> SameButProgress(LastIssued(s.stored, s.memory.writes), s.memory.jobs))
    && DownOk(s)
  }

  lemma InitHolds()
    ensures Inv(INIT)
  {
  }

  /** A URL's job in a sound table is found by its id alone. */
  lemma SoundTablesAreWellKeyed(rows: map<string, Pipeline.State>, jobs: Table)
    requires TableOk(rows, jobs)
    ensures WellKeyed(jobs)
  {
    forall u, v | u in jobs && v in jobs && jobs[u].jobId == jobs[v].jobId ensures u == v {
      assert JobOk(rows, u, jobs[u]) && JobOk(rows, v, jobs[v]);
    }
  }

  lemma TrackedIsJobOf(rows: map<string, Pipeline.State>, jobs: Table, u: string)
    requires TableOk(rows, jobs) && u in jobs
    ensures JobOk(rows, u, jobs[u])
  {
  }

  // ---- Backend steps ----

  /** What a step of the backend means for its client. */
  ghost predicate Extends(rows: map<string, Pipeline.State>, later: map<string, Pipeline.State>) {
    forall j :: j in rows ==>
      && j in later
      && later[j].row.arxivUrl == rows[j].row.arxivUrl
      && (IsTerminal(rows[j].row.status) ==> later[j].row == rows[j].row)
  }

  lemma BackendStepExtends(rows: map<string, Pipeline.State>, j: string, act: Pipeline.Action)
    requires RowsOk(rows) && j in rows && Pipeline.Enabled(rows[j], act)
    ensures var later := rows[j := Pipeline.Step(rows[j], act)];
            RowsOk(later) && Extends(rows, later)
  {
    hide Pipeline.Inv, Pipeline.Step;
    Pipeline.StepKeepsInv(rows[j], act);
    if IsTerminal(rows[j].row.status) {
      Pipeline.TerminalStepKeepsRow(rows[j], act);
    }
    StepKeepsUrl(rows[j], act);
  }

  lemma StepKeepsUrl(p: Pipeline.State, act: Pipeline.Action)
    requires Pipeline.Enabled(p, act)
    ensures Pipeline.Step(p, act).row.arxivUrl == p.row.arxivUrl
  {
  }

  lemma NewRowExtends(rows: map<string, Pipeline.State>, j: string, url: string)
    requires RowsOk(rows) && j !in rows
    ensures var later := rows[j := Pipeline.Init(url)];
            RowsOk(later) && Extends(rows, later) && IsJobOf(later, j, url)
  {
    hide Pipeline.Inv;
    Pipeline.InitHolds(url);
  }

  lemma ExtensionKeepsTable(rows: map<string, Pipeline.State>, later: map<string, Pipeline.State>, jobs: Table)
    requires Extends(rows, later) && TableOk(rows, jobs)
    ensures TableOk(later, jobs)
  {
    forall u | u in jobs ensures JobOk(later, u, jobs[u]) {
      assert JobOk(rows, u, jobs[u]);
    }
  }

  lemma ExtensionKeepsLog(rows: map<string, Pipeline.State>, later: map<string, Pipeline.State>, log: set<Table>)
    requires Extends(rows, later) && LogOk(rows, log)
    ensures LogOk(later, log)
  {
    hide TableOk, Extends;
    forall t | t in log ensures TableOk(later, t) {
      ExtensionKeepsTable(rows, later, t);
    }
  }

  lemma ExtensionKeepsRequests(s: State, later: map<string, Pipeline.State>)
    requires Extends(s.rows, later) && PollsOk(s.rows, s.polls, s.starts)
    requires StartsOk(s.rows, s.memory.jobs, s.memory.timers, s.starts)
    ensures PollsOk(later, s.polls, s.starts)
    ensures StartsOk(later, s.memory.jobs, s.memory.timers, s.starts)
  {
    hide IsStarting, Tracks, IsTerminal;
  }

  lemma ExtensionKeepsInv(s: State, later: map<string, Pipeline.State>)
    requires Inv(s) && RowsOk(later) && Extends(s.rows, later)
    ensures Inv(s.(rows := later))
  {
    hide TableOk, RowsOk, Extends, PollsOk, StartsOk, TimersOk, LogOk, PathOk, SameButProgress;
    ExtensionKeepsTable(s.rows, later, s.memory.jobs);
    ExtensionKeepsLog(s.rows, later, s.log);
    ExtensionKeepsRequests(s, later);
  }

  // ---- Requests in flight ----

  lemma PollInIsOk(rows: map<string, Pipeline.State>, polls: multiset<Poll>, starts: set<Start>, p: Poll)
    requires PollsOk(rows, polls, starts) && p in polls
    ensures PollOk(rows, p) && !IsStarting(starts, p.jobId)
  {
  }

  lemma StartInIsOk(rows: map<string, Pipeline.State>, jobs: Table, timers: map<string, string>, starts: set<Start>, st: Start)
    requires StartsOk(rows, jobs, timers, starts) && st in starts
    ensures StartOk(rows, jobs, timers, st)
  {
  }

  lemma FewerPolls(rows: map<string, Pipeline.State>, polls: multiset<Poll>, fewer: multiset<Poll>, starts: set<Start>)
    requires PollsOk(rows, polls, starts) && fewer <= polls
    ensures PollsOk(rows, fewer, starts)
  {
    hide PollOk, IsStarting;
  }

  lemma OneMorePoll(rows: map<string, Pipeline.State>, polls: multiset<Poll>, p: Poll, starts: set<Start>)
    requires PollsOk(rows, polls, starts) && PollOk(rows, p) && !IsStarting(starts, p.jobId)
    ensures PollsOk(rows, polls + multiset{p}, starts)
  {
    hide PollOk, IsStarting;
  }

  lemma FewerStarts(rows: map<string, Pipeline.State>, jobs: Table, timers: map<string, string>, polls: multiset<Poll>,
                    starts: set<Start>, st: Start)
    requires PollsOk(rows, polls, starts) && StartsOk(rows, jobs, timers, starts) && st in starts
    ensures PollsOk(rows, polls, starts - {st}) && StartsOk(rows, jobs, timers, starts - {st})
    ensures !IsStarting(starts - {st}, st.jobId)
  {
    hide PollOk, StartOk;
    forall p | p in polls ensures PollOk(rows, p) && !IsStarting(starts - {st}, p.jobId) {
      assert !IsStarting(starts, p.jobId);
    }
  }

  lemma StartIsLostKeepsInv(s: State, st: Start)
    requires Inv(s) && Enabled(s, StartIsLost(st))
    ensures Inv(Step(s, StartIsLost(st)))
  {
    hide TableOk, RowsOk, PollsOk, StartsOk, LogOk, PathOk, SameButProgress;
    FewerStarts(s.rows, s.memory.jobs, s.memory.timers, s.polls, s.starts, st);
  }

  lemma ServerReadsKeepsInv(s: State, p: Poll)
    requires Inv(s) && Enabled(s, ServerReads(p))
    ensures Inv(Step(s, ServerReads(p)))
  {
    hide TableOk, RowsOk, PollsOk, StartsOk, TimersOk, LogOk, PathOk, SameButProgress;
    PollInIsOk(s.rows, s.polls, s.starts, p);
    FewerPolls(s.rows, s.polls, s.polls - multiset{p}, s.starts);
    OneMorePoll(s.rows, s.polls - multiset{p}, Answered(p.jobId, p.url, s.rows[p.jobId].row), s.starts);
  }

  lemma PollIsLostKeepsInv(s: State, p: Poll)
    requires Inv(s) && Enabled(s, PollIsLost(p))
    ensures Inv(Step(s, PollIsLost(p)))
  {
    hide TableOk, RowsOk, PollsOk, StartsOk, TimersOk, LogOk, PathOk, SameButProgress;
    FewerPolls(s.rows, s.polls, s.polls - multiset{p}, s.starts);
  }

  lemma PostKeepsStarts(s: State, later: map<string, Pipeline.State>, j: string, url: string)
    requires j !in s.rows && IsJobOf(later, j, url) && Inv(s)
    requires PollsOk(later, s.polls, s.starts) && StartsOk(later, s.memory.jobs, s.memory.timers, s.starts)
    ensures PollsOk(later, s.polls, s.starts + {Created(j, url)})
    ensures StartsOk(later, s.memory.jobs, s.memory.timers, s.starts + {Created(j, url)})
  {
    hide RowsOk, LogOk, PathOk, SameButProgress, Agrees;
    assert forall u :: u in s.memory.jobs ==> JobOk(s.rows, u, s.memory.jobs[u]) && s.memory.jobs[u].jobId != j;
    assert forall i :: i in s.memory.timers ==> TimerOk(s.memory.jobs, i, s.memory.timers[i]) && i != j;
    forall p | p in s.polls ensures PollOk(later, p) && !IsStarting(s.starts + {Created(j, url)}, p.jobId) {
      assert PollOk(s.rows, p) && !IsStarting(s.starts, p.jobId);
    }
    assert forall st :: st in s.starts ==> StartOk(s.rows, s.memory.jobs, s.memory.timers, st) && st.jobId != j;
  }

  lemma PostKeepsInv(s: State, j: string, url: string)
    requires Inv(s) && Enabled(s, Posts(j, url))
    ensures Inv(Step(s, Posts(j, url)))
  {
    hide TableOk, RowsOk, PollsOk, StartsOk, LogOk, PathOk, SameButProgress, Extends;
    var later := s.rows[j := Pipeline.Init(url)];
    NewRowExtends(s.rows, j, url);
    ExtensionKeepsInv(s, later);
    PostKeepsStarts(s, later, j, url);
  }

  lemma WithPollKeeps(s: State, starts: set<Start>, jobId: string, url: string)
    requires TableOk(s.rows, s.memory.jobs) && PollsOk(s.rows, s.polls, starts) && !IsStarting(starts, jobId)
    ensures PollsOk(s.rows, WithPoll(s, jobId, url), starts)
  {
    if Tracks(s.memory.jobs, url, jobId) {
      TrackedIsJobOf(s.rows, s.memory.jobs, url);
      OneMorePoll(s.rows, s.polls, Waiting(jobId, url), starts);
    }
  }

  // ---- Timers ----

  /** `startPolling` completes the start of a job: the timer it sets stays if the
      job is still in place. */
  lemma ContinueKeepsTimers(rows: map<string, Pipeline.State>, m: Memory, starts: set<Start>, st: Start)
    requires TableOk(rows, m.jobs) && TimersOk(m.jobs, m.timers, starts)
    requires StartsOk(rows, m.jobs, m.timers, starts) && st.InTable? && st in starts
    ensures var t := Polling(m, st.jobId, st.url);
            && TimersOk(t.jobs, t.timers, starts - {st})
            && StartsOk(rows, t.jobs, t.timers, starts - {st})
            && t == m.(timers := t.timers)
  {
    SoundTablesAreWellKeyed(rows, m.jobs);
    hide TableOk, IsJobOf, WellKeyed;
    assert StartOk(rows, m.jobs, m.timers, st);
    var t := Polling(m, st.jobId, st.url);
    forall u | u in t.jobs && t.jobs[u].status == Processing
      ensures t.jobs[u].jobId in t.timers || InTable(t.jobs[u].jobId, u) in starts - {st}
    {
      if InTable(t.jobs[u].jobId, u) == st {
        assert Tracks(m.jobs, st.url, st.jobId);
      }
    }
    forall other | other in starts - {st} ensures StartOk(rows, t.jobs, t.timers, other) {
      assert StartOk(rows, m.jobs, m.timers, other) && other.jobId != st.jobId;
    }
  }

  lemma ContinueKeepsInv(s: State, st: Start)
    requires Inv(s) && Enabled(s, StartContinues(st))
    ensures Inv(Step(s, StartContinues(st)))
  {
    hide TableOk, RowsOk, PollsOk, StartsOk, TimersOk, LogOk, PathOk, SameButProgress, Polling, WithPoll, IsStarting;
    FewerStarts(s.rows, s.memory.jobs, s.memory.timers, s.polls, s.starts, st);
    ContinueKeepsTimers(s.rows, s.memory, s.starts, st);
    WithPollKeeps(s, s.starts - {st}, st.jobId, st.url);
  }

  /** A timer that fires passes the guard: its job is in place. */
  lemma TimerKeepsInv(s: State, j: string)
    requires Inv(s) && Enabled(s, TimerFires(j))
    ensures Inv(Step(s, TimerFires(j)))
  {
    assert TimerOk(s.memory.jobs, j, s.memory.timers[j]);
    assert forall st :: st in s.starts ==> StartOk(s.rows, s.memory.jobs, s.memory.timers, st);
    assert !IsStarting(s.starts, j);
    hide TableOk, RowsOk, PollsOk, StartsOk, TimersOk, LogOk, PathOk, SameButProgress, WithPoll, IsStarting;
    WithPollKeeps(s, s.starts, j, s.memory.timers[j]);
  }

  // ---- Writes to the table ----

  /** A stretch of code that ends in a snapshot of its table keeps storage in
      step with it. */
  lemma PersistKeepsStorage(s: State, m: Memory)
    requires LogOk(s.rows, s.log) && PathOk(s.log, s.stored, s.memory.writes)
    requires TableOk(s.rows, m.jobs) && m.writes == s.memory.writes + [m.jobs]
    ensures var t := Logged(s, m);
            && LogOk(t.rows, t.log) && PathOk(t.log, t.stored, t.memory.writes)
            && SameButProgress(LastIssued(t.stored, t.memory.writes), m.jobs)
  {
    hide TableOk;
    assert m.writes[|m.writes| - 1] == m.jobs;
  }

  lemma InsertKeepsTable(rows: map<string, Pipeline.State>, m: Memory, jobId: string, url: string, now: nat)
    requires TableOk(rows, m.jobs) && IsJobOf(rows, jobId, url)
    ensures TableOk(rows, Inserted(m, jobId, url, now).jobs)
  {
    hide IsJobOf;
  }

  lemma InsertKeepsTimers(rows: map<string, Pipeline.State>, m: Memory, starts: set<Start>, st: Start, now: nat)
    requires TimersOk(m.jobs, m.timers, starts) && TableOk(rows, m.jobs)
    requires st in starts && st.Created?
    ensures var t := Inserted(m, st.jobId, st.url, now);
            TimersOk(t.jobs, t.timers, starts - {st} + {InTable(st.jobId, st.url)})
  {
    hide TableOk;
    SoundTablesAreWellKeyed(rows, m.jobs);
    var t := Inserted(m, st.jobId, st.url, now);
    forall j | j in t.timers ensures TimerOk(t.jobs, j, t.timers[j]) {
      assert TimerOk(m.jobs, j, m.timers[j]);
    }
  }

  lemma InsertKeepsStarts(rows: map<string, Pipeline.State>, m: Memory, polls: multiset<Poll>, starts: set<Start>,
                          st: Start, now: nat)
    requires StartsOk(rows, m.jobs, m.timers, starts) && PollsOk(rows, polls, starts)
    requires st in starts && st.Created?
    ensures var t := Inserted(m, st.jobId, st.url, now);
            StartsOk(rows, t.jobs, t.timers, starts - {st} + {InTable(st.jobId, st.url)})
    ensures PollsOk(rows, polls, starts - {st} + {InTable(st.jobId, st.url)})
  {
    hide IsJobOf;
    var t := Inserted(m, st.jobId, st.url, now);
    var later := starts - {st} + {InTable(st.jobId, st.url)};
    assert StartOk(rows, m.jobs, m.timers, st);
    forall other | other in later ensures StartOk(rows, t.jobs, t.timers, other) {
      if other in starts {
        assert StartOk(rows, m.jobs, m.timers, other) && other.jobId != st.jobId;
      }
    }
    forall p | p in polls ensures PollOk(rows, p) && !IsStarting(later, p.jobId) {
      assert !IsStarting(starts, p.jobId);
    }
  }

  lemma InsertKeepsInv(s: State, st: Start, now: nat)
    requires Inv(s) && Enabled(s, StartReplies(st, now))
    ensures Inv(Step(s, StartReplies(st, now)))
  {
    hide TableOk, RowsOk, PollsOk, StartsOk, TimersOk, LogOk, PathOk, SameButProgress, LastIssued;
    var m := Inserted(s.memory, st.jobId, st.url, now);
    StartInIsOk(s.rows, s.memory.jobs, s.memory.timers, s.starts, st);
    InsertKeepsTable(s.rows, s.memory, st.jobId, st.url, now);
    PersistKeepsStorage(s, m);
    InsertKeepsTimers(s.rows, s.memory, s.starts, st, now);
    InsertKeepsStarts(s.rows, s.memory, s.polls, s.starts, st, now);
  }

  lemma ReplyKeepsTable(rows: map<string, Pipeline.State>, m: Memory, p: Poll)
    requires TableOk(rows, m.jobs) && p.Answered? && PollOk(rows, p)
    ensures TableOk(rows, Replied(m, p.jobId, p.url, p.row).jobs)
  {
    if Tracks(m.jobs, p.url, p.jobId) {
      var job := m.jobs[p.url];
      TrackedIsJobOf(rows, m.jobs, p.url);
      assert JobOk(rows, p.url, Told(job, p.row));
      hide JobOk;
    }
  }

  lemma ReplyKeepsStorage(s: State, p: Poll)
    requires p.Answered? && LogOk(s.rows, s.log) && PathOk(s.log, s.stored, s.memory.writes)
    requires SameButProgress(LastIssued(s.stored, s.memory.writes), s.memory.jobs)
    requires TableOk(s.rows, Replied(s.memory, p.jobId, p.url, p.row).jobs)
    ensures var t := Logged(s, Replied(s.memory, p.jobId, p.url, p.row));
            && LogOk(t.rows, t.log) && PathOk(t.log, t.stored, t.memory.writes)
            && SameButProgress(LastIssued(t.stored, t.memory.writes), t.memory.jobs)
  {
    hide TableOk, LogOk, PathOk, SameButProgress, LastIssued;
    var m := Replied(s.memory, p.jobId, p.url, p.row);
    if Tracks(s.memory.jobs, p.url, p.jobId) && IsTerminal(p.row.status) {
      PersistKeepsStorage(s, m);
    } else {
      LateReplyKeepsWrites(s, p);
    }
  }

  /** A reply that is not final writes nothing and changes the progress at most. */
  lemma LateReplyKeepsWrites(s: State, p: Poll)
    requires p.Answered? && PathOk(s.log, s.stored, s.memory.writes)
    requires SameButProgress(LastIssued(s.stored, s.memory.writes), s.memory.jobs)
    requires !(Tracks(s.memory.jobs, p.url, p.jobId) && IsTerminal(p.row.status))
    ensures var m := Replied(s.memory, p.jobId, p.url, p.row);
            && m.writes == s.memory.writes && Logged(s, m).log == s.log
            && SameButProgress(LastIssued(s.stored, s.memory.writes), m.jobs)
  {
    hide LastIssued;
    var m := Replied(s.memory, p.jobId, p.url, p.row);
    assert m.writes != [] ==> m.writes[|m.writes| - 1] in s.log;
  }

  lemma IdIsUnique(rows: map<string, Pipeline.State>, jobs: Table, url: string)
    requires TableOk(rows, jobs) && url in jobs
    ensures forall u :: Tracks(jobs, u, jobs[url].jobId) ==> u == url
  {
    hide TableOk;
    SoundTablesAreWellKeyed(rows, jobs);
  }

  lemma ReplyKeepsTimers(rows: map<string, Pipeline.State>, m: Memory, starts: set<Start>, p: Poll)
    requires TableOk(rows, m.jobs) && TimersOk(m.jobs, m.timers, starts)
    requires p.Answered?
    ensures var t := Replied(m, p.jobId, p.url, p.row);
            TimersOk(t.jobs, t.timers, starts)
  {
    hide TableOk;
    var t := Replied(m, p.jobId, p.url, p.row);
    if Tracks(m.jobs, p.url, p.jobId) {
      IdIsUnique(rows, m.jobs, p.url);
      forall j | j in t.timers ensures TimerOk(t.jobs, j, t.timers[j]) {
        assert TimerOk(m.jobs, j, m.timers[j]);
      }
      forall u | u in t.jobs && t.jobs[u].status == Processing
        ensures t.jobs[u].jobId in t.timers || InTable(t.jobs[u].jobId, u) in starts
      {
        assert m.jobs[u].status == Processing && t.jobs[u].jobId == m.jobs[u].jobId;
        assert Tracks(m.jobs, u, m.jobs[u].jobId);
      }
    }
  }

  lemma ReplyKeepsStarts(rows: map<string, Pipeline.State>, m: Memory, starts: set<Start>, p: Poll)
    requires StartsOk(rows, m.jobs, m.timers, starts) && p.Answered? && !IsStarting(starts, p.jobId)
    ensures var t := Replied(m, p.jobId, p.url, p.row);
            StartsOk(rows, t.jobs, t.timers, starts)
  {
    hide IsJobOf;
    var t := Replied(m, p.jobId, p.url, p.row);
    forall st | st in starts ensures StartOk(rows, t.jobs, t.timers, st) {
      assert StartOk(rows, m.jobs, m.timers, st) && st.jobId != p.jobId;
    }
  }

  lemma ReplyKeepsInv(s: State, p: Poll)
    requires Inv(s) && Enabled(s, PollReplies(p))
    ensures Inv(Step(s, PollReplies(p)))
  {
    hide TableOk, RowsOk, PollsOk, StartsOk, TimersOk, LogOk, PathOk, SameButProgress, LastIssued, Replied;
    PollInIsOk(s.rows, s.polls, s.starts, p);
    assert s.up;
    ReplyKeepsTable(s.rows, s.memory, p);
    ReplyKeepsStorage(s, p);
    ReplyKeepsTimers(s.rows, s.memory, s.starts, p);
    ReplyKeepsStarts(s.rows, s.memory, s.starts, p);
    FewerPolls(s.rows, s.polls, s.polls - multiset{p}, s.starts);
  }

  lemma FlagKeepsTable(rows: map<string, Pipeline.State>, m: Memory, jobId: string, url: string, flag: bool)
    requires TableOk(rows, m.jobs)
    ensures TableOk(rows, Flagged(m, jobId, url, flag).jobs)
  {
    hide IsJobOf;
    var t := Flagged(m, jobId, url, flag);
    forall u | u in t.jobs ensures JobOk(rows, u, t.jobs[u]) {
      TrackedIsJobOf(rows, m.jobs, u);
    }
  }

  lemma FlagKeepsTimers(rows: map<string, Pipeline.State>, m: Memory, starts: set<Start>, jobId: string, url: string, flag: bool)
    requires TimersOk(m.jobs, m.timers, starts) && StartsOk(rows, m.jobs, m.timers, starts)
    ensures var t := Flagged(m, jobId, url, flag);
            TimersOk(t.jobs, t.timers, starts) && StartsOk(rows, t.jobs, t.timers, starts)
  {
    hide IsJobOf;
    var t := Flagged(m, jobId, url, flag);
    forall j | j in t.timers ensures TimerOk(t.jobs, j, t.timers[j]) {
      assert TimerOk(m.jobs, j, m.timers[j]);
    }
    forall st | st in starts ensures StartOk(rows, t.jobs, t.timers, st) {
      assert StartOk(rows, m.jobs, m.timers, st);
    }
  }

  lemma FlagKeepsInv(s: State, jobId: string, url: string, flag: bool, cancels: multiset<Cancel>)
    requires Inv(s) && s.up
    ensures Inv(Logged(s, Flagged(s.memory, jobId, url, flag)).(cancels := cancels))
  {
    hide TableOk, RowsOk, PollsOk, StartsOk, TimersOk, LogOk, PathOk, SameButProgress, LastIssued;
    var m := Flagged(s.memory, jobId, url, flag);
    FlagKeepsTable(s.rows, s.memory, jobId, url, flag);
    FlagKeepsTimers(s.rows, s.memory, s.starts, jobId, url, flag);
    PersistKeepsStorage(s, m);
  }

  // ---- Storage, death and restart ----

  lemma LandingKeepsInv(s: State)
    requires Inv(s) && Enabled(s, WriteLands)
    ensures Inv(Step(s, WriteLands))
  {
    hide TableOk, RowsOk, PollsOk, StartsOk, TimersOk, LogOk, SameButProgress;
    var t := Step(s, WriteLands);
    assert LastIssued(t.stored, t.memory.writes) == LastIssued(s.stored, s.memory.writes);
  }

  lemma KillKeepsInv(s: State)
    requires Inv(s)
    ensures Inv(Killed(s))
  {
    hide RowsOk, LogOk, SameButProgress;
  }

  lemma FirstPollsOk(rows: map<string, Pipeline.State>, jobs: Table)
    requires TableOk(rows, jobs)
    ensures PollsOk(rows, FirstPolls(jobs), {})
  {
    forall p | p in FirstPolls(jobs) ensures PollOk(rows, p) && !IsStarting({}, p.jobId) {
      var u :| u in InProgress(jobs) && p == Waiting(jobs[u].jobId, u);
      TrackedIsJobOf(rows, jobs, u);
    }
  }

  lemma RestoredTimersOk(jobs: Table)
    requires WellKeyed(jobs)
    ensures TimersOk(jobs, TimersFor(jobs), {})
  {
  }

  lemma KeptIsSound(rows: map<string, Pipeline.State>, stored: Table, now: nat)
    requires TableOk(rows, stored)
    ensures TableOk(rows, Kept(stored, now)) && WellKeyed(stored) && WellKeyed(Kept(stored, now))
  {
    hide JobOk;
    SoundTablesAreWellKeyed(rows, stored);
  }

  lemma RestartKeepsStorage(s: State, now: nat)
    requires LogOk(s.rows, s.log) && s.stored in s.log && WellKeyed(s.stored) && TableOk(s.rows, Kept(s.stored, now))
    ensures var t := Logged(s, Restored(s.stored, now));
            && LogOk(t.rows, t.log) && PathOk(t.log, t.stored, t.memory.writes)
            && LastIssued(t.stored, t.memory.writes) == t.memory.jobs
  {
    hide TableOk, Kept, TimersFor, WellKeyed;
  }

  lemma NoStarts(rows: map<string, Pipeline.State>, jobs: Table, timers: map<string, string>)
    ensures StartsOk(rows, jobs, timers, {})
  {
  }

  lemma RestartKeepsInv(s: State, now: nat)
    requires Inv(s) && Enabled(s, Restarts(now))
    ensures Inv(Step(s, Restarts(now)))
  {
    hide TableOk, RowsOk, PollsOk, TimersOk, StartsOk, Kept, TimersFor, FirstPolls, WellKeyed;
    var kept := Kept(s.stored, now);
    assert TableOk(s.rows, s.stored);
    KeptIsSound(s.rows, s.stored, now);
    FirstPollsOk(s.rows, kept);
    RestoredTimersOk(kept);
    RestartKeepsStorage(s, now);
    NoStarts(s.rows, kept, TimersFor(kept));
  }

  lemma StepKeepsInv(s: State, a: Action)
    requires Inv(s) && Enabled(s, a)
    ensures Inv(Step(s, a))
  {
    hide RowsOk, TableOk, PollsOk, StartsOk, TimersOk, LogOk, PathOk, SameButProgress, LastIssued;
    match a
    case BackendSteps(j, act) =>
      BackendStepExtends(s.rows, j, act);
      ExtensionKeepsInv(s, Step(s, a).rows);
    case OtherClientPosts(j, url) =>
      NewRowExtends(s.rows, j, url);
      ExtensionKeepsInv(s, Step(s, a).rows);
    case Posts(j, url) => PostKeepsInv(s, j, url);
    case StartReplies(st, now) => InsertKeepsInv(s, st, now);
    case StartIsLost(st) => StartIsLostKeepsInv(s, st);
    case StartContinues(st) => ContinueKeepsInv(s, st);
    case TimerFires(j) => TimerKeepsInv(s, j);
    case ServerReads(p) => ServerReadsKeepsInv(s, p);
    case PollReplies(p) => ReplyKeepsInv(s, p);
    case PollIsLost(p) => PollIsLostKeepsInv(s, p);
    case AsksCancel(j, u) => FlagKeepsInv(s, j, u, true, Step(s, a).cancels);
    case CancelSucceeds(_) =>
    case CancelFails(c) => FlagKeepsInv(s, c.jobId, c.url, false, Step(s, a).cancels);
    case WriteLands => LandingKeepsInv(s);
    case IsKilled => KillKeepsInv(s);
    case Restarts(now) => RestartKeepsInv(s, now);
  }
}
