/** One job as a transition system: the pipeline runner, the dispatcher behind it
    and any number of cancel requests interleave over the job's row, one row
    access at a time. Work that is not a row access has an arbitrary outcome. */
module Pipeline {
  import opened Text
  import opened JobRow

  // ---- Stages ----

  const STAGES: nat := 5

  function StageStatus(k: nat): Status
    requires k < STAGES
  {
    [TexFetch, Tex2Markdown, Translation, Summary, Packaging][k]
  }

  function StageName(k: nat): string
    requires k < STAGES
  {
    ["tex_fetch", "tex2markdown", "translation", "summary", "packaging"][k]
  }

  function StageProgress(k: nat): nat
    requires k < STAGES
  {
    [10, 30, 60, 80, 95][k]
  }

  /** The stages that run an LLM call raced against a watcher of the flag. */
  predicate IsLlmStage(k: nat) {
    k == 2 || k == 3
  }

  // ---- States and steps ----

  /** Where the runner stands. A stage is checked, published and worked on; the
      last one ends in storing the result. An error is written for quiet
      failures and for those that are raised again afterwards. */
  datatype Pc =
    | Check(stage: nat)
    | Publish(stage: nat)
    | Work(stage: nat)
    | Store(url: string, path: Option<string>)
    | WriteError(message: string, raises: bool)
    | WriteCancelled
    | Raised
    | FallbackDecides(seen: Status)
    | Done
    | Killed

  /** A cancel request: the route reads the row and refuses a finished job;
      otherwise it issues the conditional write and answers "accepted" whatever
      became of it. */
  datatype Call = Writing | AnsweredAccepted | AnsweredConflict

  datatype State = State(row: Row, pc: Pc, calls: map<nat, Call>, written: seq<Status>)

  /** What the work of a stage can raise: a paper without source, TeX that pandoc
      rejects, or anything else. */
  datatype Failure = PdfOnly | Pandoc(detail: string) | Other

  datatype Action =
    | ReadFlag
    | PublishProgress
    | Finish
    | Fail(why: Failure)
    | Package(url: string, path: Option<string>)
    | WatcherSeesFlag
    | StoreResult
    | StoreError
    | StoreCancelled
    | HandlerSwallows
    | FallbackReads
    | FallbackActs
    | Kill
    | RouteReads(call: nat)
    | RouteWrites(call: nat)

  function Init(arxivUrl: string): State {
    State(NewRow(arxivUrl), Check(0), map[], [])
  }

  predicate Enabled(s: State, a: Action) {
    match a
    case ReadFlag => s.pc.Check?
    case PublishProgress => s.pc.Publish? && s.pc.stage < STAGES
    case Finish => s.pc.Work? && s.pc.stage + 1 < STAGES
    case Fail(_) => s.pc.Work?
    case Package(_, _) => s.pc.Work? && s.pc.stage + 1 == STAGES
    case WatcherSeesFlag => s.pc.Work? && IsLlmStage(s.pc.stage) && s.row.cancelRequested
    case StoreResult => s.pc.Store?
    case StoreError => s.pc.WriteError?
    case StoreCancelled => s.pc.WriteCancelled?
    case HandlerSwallows => s.pc.Raised?
    case FallbackReads => s.pc.Raised?
    case FallbackActs => s.pc.FallbackDecides?
    case Kill => true
    case RouteReads(c) => c !in s.calls
    case RouteWrites(c) => c in s.calls && s.calls[c] == Writing
  }

  const GENERIC_ERROR: string := "Pipeline execution failed"

  const PDF_ONLY_ERROR: string := "この論文は PDF 版のみ提供されており、HTML/TeX ソースがないため変換できません。"

  const PANDOC_ERROR: string := "TeX ソースの構文を pandoc が解釈できませんでした: "

  /** The error text that the handler of a failure stores. */
  function MessageFor(why: Failure): string {
    match why
    case PdfOnly => PDF_ONLY_ERROR
    case Pandoc(detail) => PANDOC_ERROR + detail
    case Other => GENERIC_ERROR
  }

  function ErrorFor(why: Failure): Pc {
    WriteError(MessageFor(why), why.Other?)
  }

  function Step(s: State, a: Action): State
    requires Enabled(s, a)
  {
    match a
    case ReadFlag => s.(pc := if s.row.cancelRequested then WriteCancelled else Publish(s.pc.stage))
    case PublishProgress =>
      var k := s.pc.stage;
      s.(row := WithProgress(s.row, StageStatus(k), StageName(k), StageProgress(k)),
         pc := Work(k), written := s.written + [StageStatus(k)])
    case Finish => s.(pc := Check(s.pc.stage + 1))
    case Fail(why) => s.(pc := ErrorFor(why))
    case Package(url, path) => s.(pc := Store(url, path))
    case WatcherSeesFlag => s.(pc := WriteCancelled)
    case StoreResult =>
      s.(row := WithResult(s.row, s.pc.url, s.pc.path), pc := Done, written := s.written + [Completed])
    case StoreError =>
      s.(row := WithError(s.row, s.pc.message), pc := if s.pc.raises then Raised else Done,
         written := s.written + [Error])
    case StoreCancelled => s.(row := WithCancelled(s.row), pc := Done, written := s.written + [Cancelled])
    case HandlerSwallows => s.(pc := Done)
    case FallbackReads => s.(pc := FallbackDecides(s.row.status))
    case FallbackActs =>
      if IsTerminal(s.pc.seen) then s.(pc := Done)
      else s.(row := WithError(s.row, GENERIC_ERROR), pc := Done, written := s.written + [Error])
    case Kill => s.(pc := Killed)
    case RouteReads(c) => s.(calls := s.calls[c := if IsTerminal(s.row.status) then AnsweredConflict else Writing])
    case RouteWrites(c) => s.(row := WithCancelRequest(s.row), calls := s.calls[c := AnsweredAccepted])
  }

  // ---- Runs ----

  predicate IsRun(s: State, acts: seq<Action>)
    decreases acts
  {
    acts == [] || (Enabled(s, acts[0]) && IsRun(Step(s, acts[0]), acts[1..]))
  }

  function Exec(s: State, acts: seq<Action>): State
    requires IsRun(s, acts)
    decreases acts
  {
    if acts == [] then s else Exec(Step(s, acts[0]), acts[1..])
  }

  lemma {:induction false} RunsSplit(s: State, acts: seq<Action>, k: nat)
    requires IsRun(s, acts) && k <= |acts|
    ensures IsRun(s, acts[..k]) && IsRun(Exec(s, acts[..k]), acts[k..])
    ensures Exec(s, acts) == Exec(Exec(s, acts[..k]), acts[k..])
    decreases k
  {
    if k == 0 {
      assert acts[0..] == acts && acts[..0] == [];
    } else {
      RunsSplit(Step(s, acts[0]), acts[1..], k - 1);
      assert acts[..k][1..] == acts[1..][..k - 1] && acts[1..][k - 1..] == acts[k..];
    }
  }

  lemma {:induction false} RunsJoin(s: State, a: seq<Action>, b: seq<Action>)
    requires IsRun(s, a) && IsRun(Exec(s, a), b)
    ensures IsRun(s, a + b) && Exec(s, a + b) == Exec(Exec(s, a), b)
    decreases a
  {
    if a == [] {
      assert a + b == b;
    } else {
      RunsJoin(Step(s, a[0]), a[1..], b);
      assert (a + b)[1..] == a[1..] + b;
    }
  }

  // ---- The invariant ----

  /** The row while `k` stages have been published and the job is in flight. */
  predicate InFlight(r: Row, k: nat) {
    && k <= STAGES
    && r.status == (if k == 0 then Accepted else StageStatus(k - 1))
    && r.progress == (if k == 0 then 0 else StageProgress(k - 1))
    && r.currentStep == (if k == 0 then None else Some(StageName(k - 1)))
    && r.downloadUrl == None && r.error == None
  }

  /** The statuses written while `k` stages have been published. */
  function Published(k: nat): seq<Status>
    requires k <= STAGES
  {
    [TexFetch, Tex2Markdown, Translation, Summary, Packaging][..k]
  }

  /** The couplings between the fields of a finished row. */
  predicate Finished(r: Row) {
    && IsTerminal(r.status)
    && (r.status == Completed <==> r.downloadUrl.Some?)
    && (r.status == Completed <==> r.progress == 100)
    && (r.status == Completed ==> r.currentStep == Some("done"))
    && (r.status == Error <==> r.error.Some?)
    && (r.status == Error ==> r.progress == 0)
    && (r.status == Cancelled ==> r.cancelRequested && r.progress in {0, 10, 30, 60, 80})
  }

  /** The job is in flight with `k` stages published and none of them finished off. */
  predicate Flying(r: Row, written: seq<Status>, k: nat) {
    InFlight(r, k) && written == Published(k)
  }

  /** The job is in flight, with fewer than `n` stages published. */
  predicate FlyingBelow(r: Row, written: seq<Status>, n: nat) {
    exists k :: 0 <= k < n && Flying(r, written, k)
  }

  /** The job is finished: exactly one terminal status was written, after the
      stages; all of them when it completed. */
  predicate Landed(r: Row, written: seq<Status>) {
    && Finished(r)
    && exists k :: 0 <= k <= STAGES && written == Published(k) + [r.status] && (r.status == Completed ==> k == STAGES)
  }

  predicate AtPc(s: State) {
    match s.pc
    case Check(k) => k < STAGES && Flying(s.row, s.written, k)
    case Publish(k) => k < STAGES && Flying(s.row, s.written, k)
    case Work(k) => k < STAGES && Flying(s.row, s.written, k + 1)
    case Store(_, _) => Flying(s.row, s.written, STAGES)
    case WriteError(_, _) => FlyingBelow(s.row, s.written, STAGES + 1)
    case WriteCancelled => s.row.cancelRequested && FlyingBelow(s.row, s.written, STAGES)
    case Raised => Landed(s.row, s.written)
    case FallbackDecides(seen) => Landed(s.row, s.written) && IsTerminal(seen)
    case Done => Landed(s.row, s.written)
    case Killed => Landed(s.row, s.written) || FlyingBelow(s.row, s.written, STAGES + 1)
  }

  /** An accepted cancel request found the job in flight or came too late, and
      the flag is only ever raised by one. */
  predicate CallsAgree(s: State) {
    && (forall c :: c in s.calls && s.calls[c] == AnsweredAccepted ==> s.row.cancelRequested || IsTerminal(s.row.status))
    && (forall c :: c in s.calls && s.calls[c] == AnsweredConflict ==> IsTerminal(s.row.status))
    && (s.row.cancelRequested ==> exists c :: c in s.calls && s.calls[c] == AnsweredAccepted)
  }

  predicate Inv(s: State) {
    AtPc(s) && CallsAgree(s)
  }

  lemma InitHolds(arxivUrl: string)
    ensures Inv(Init(arxivUrl))
  {
    assert Published(0) == [];
  }

  lemma PublishedGrows(k: nat)
    requires k < STAGES
    ensures Published(k + 1) == Published(k) + [StageStatus(k)]
  {
  }

  lemma StageKeepsAtPc(s: State, a: Action)
    requires AtPc(s) && Enabled(s, a)
    requires a.ReadFlag? || a.PublishProgress? || a.Finish? || a.Fail? || a.Package? || a.WatcherSeesFlag?
    ensures AtPc(Step(s, a))
  {
    hide Published, Landed, InFlight, MessageFor;
    match a
    case ReadFlag =>
      assert s.row.cancelRequested ==> Flying(s.row, s.written, s.pc.stage);
    case PublishProgress =>
      PublishingKeepsFlight(s.row, s.written, s.pc.stage);
    case Finish =>
    case Fail(why) =>
      assert Flying(s.row, s.written, s.pc.stage + 1);
    case Package(_, _) =>
    case WatcherSeesFlag =>
      assert Flying(s.row, s.written, s.pc.stage + 1);
  }

  lemma PublishingKeepsFlight(r: Row, written: seq<Status>, k: nat)
    requires k < STAGES && Flying(r, written, k)
    ensures Flying(WithProgress(r, StageStatus(k), StageName(k), StageProgress(k)), written + [StageStatus(k)], k + 1)
  {
    hide Published;
    PublishedGrows(k);
  }

  lemma WriteKeepsAtPc(s: State, a: Action)
    requires AtPc(s) && Enabled(s, a) && (a.StoreResult? || a.StoreError? || a.StoreCancelled?)
    ensures AtPc(Step(s, a))
  {
    hide Published;
    match a
    case StoreResult =>
      assert Step(s, a).written == Published(STAGES) + [Completed];
    case StoreError =>
      var k :| 0 <= k <= STAGES && Flying(s.row, s.written, k);
      assert Step(s, a).written == Published(k) + [Error];
    case StoreCancelled =>
      var k :| 0 <= k < STAGES && Flying(s.row, s.written, k);
      assert Step(s, a).written == Published(k) + [Cancelled];
  }

  lemma HandlerKeepsAtPc(s: State, a: Action)
    requires AtPc(s) && Enabled(s, a)
    requires a.StoreResult? || a.StoreError? || a.StoreCancelled? || a.HandlerSwallows? || a.FallbackReads? || a.FallbackActs?
    ensures AtPc(Step(s, a))
  {
    hide Published, InFlight;
    if a.StoreResult? || a.StoreError? || a.StoreCancelled? {
      WriteKeepsAtPc(s, a);
    }
  }

  lemma RunnerKeepsAtPc(s: State, a: Action)
    requires AtPc(s) && Enabled(s, a) && !a.RouteReads? && !a.RouteWrites?
    ensures AtPc(Step(s, a))
  {
    hide AtPc, Step, Landed, FlyingBelow, Flying;
    match a
    case ReadFlag => StageKeepsAtPc(s, a);
    case PublishProgress => StageKeepsAtPc(s, a);
    case Finish => StageKeepsAtPc(s, a);
    case Fail(_) => StageKeepsAtPc(s, a);
    case Package(_, _) => StageKeepsAtPc(s, a);
    case WatcherSeesFlag => StageKeepsAtPc(s, a);
    case Kill => KillKeepsAtPc(s);
    case _ => HandlerKeepsAtPc(s, a);
  }

  lemma KillKeepsAtPc(s: State)
    requires AtPc(s)
    ensures AtPc(Step(s, Kill))
  {
    hide Published, InFlight, Finished;
    KilledKeeps(s);
  }

  lemma KilledKeeps(s: State)
    requires AtPc(s)
    ensures Landed(s.row, s.written) || FlyingBelow(s.row, s.written, STAGES + 1)
  {
    match s.pc
    case Check(k) => assert Flying(s.row, s.written, k);
    case Publish(k) => assert Flying(s.row, s.written, k);
    case Work(k) => assert Flying(s.row, s.written, k + 1);
    case Store(_, _) => assert Flying(s.row, s.written, STAGES);
    case _ =>
  }

  lemma TerminalIsFinished(s: State)
    requires Inv(s) && IsTerminal(s.row.status)
    ensures Finished(s.row)
  {
    hide Published;
    KilledKeeps(s);
  }

  /** A cancel request changes nothing but the flag, and only in flight. */
  lemma RouteKeepsAtPc(s: State, a: Action)
    requires AtPc(s) && Enabled(s, a) && (a.RouteReads? || a.RouteWrites?)
    ensures AtPc(Step(s, a))
  {
    hide Published;
    var t := Step(s, a);
    assert forall k :: 0 <= k <= STAGES && Flying(s.row, s.written, k) ==> Flying(t.row, t.written, k);
    if Landed(s.row, s.written) {
      assert t.row == s.row && t.written == s.written;
    }
  }

  lemma StepKeepsCalls(s: State, a: Action)
    requires AtPc(s) && CallsAgree(s) && Enabled(s, a)
    ensures CallsAgree(Step(s, a))
  {
    var t := Step(s, a);
    if a.RouteWrites? {
      assert t.calls[a.call] == AnsweredAccepted;
    } else if s.row.cancelRequested {
      var c :| c in s.calls && s.calls[c] == AnsweredAccepted;
      assert c in t.calls && t.calls[c] == AnsweredAccepted;
    }
  }

  lemma StepKeepsInv(s: State, a: Action)
    requires Inv(s) && Enabled(s, a)
    ensures Inv(Step(s, a))
  {
    StepKeepsCalls(s, a);
    if a.RouteReads? || a.RouteWrites? {
      RouteKeepsAtPc(s, a);
    } else {
      RunnerKeepsAtPc(s, a);
    }
  }

  lemma {:induction false} RunKeepsInv(s: State, acts: seq<Action>)
    requires Inv(s) && IsRun(s, acts)
    ensures Inv(Exec(s, acts))
    decreases acts
  {
    if acts != [] {
      StepKeepsInv(s, acts[0]);
      RunKeepsInv(Step(s, acts[0]), acts[1..]);
    }
  }

  // ---- Terminal states absorb ----

  /** Once the row is terminal no step of anybody changes it. */
  lemma TerminalStepKeepsRow(s: State, a: Action)
    requires Inv(s) && Enabled(s, a) && IsTerminal(s.row.status)
    ensures Step(s, a).row == s.row && Step(s, a).written == s.written
  {
  }

  lemma {:induction false} TerminalAbsorbs(s: State, acts: seq<Action>)
    requires Inv(s) && IsRun(s, acts) && IsTerminal(s.row.status)
    ensures Exec(s, acts).row == s.row && Exec(s, acts).written == s.written
    decreases acts
  {
    if acts != [] {
      StepKeepsInv(s, acts[0]);
      TerminalStepKeepsRow(s, acts[0]);
      TerminalAbsorbs(Step(s, acts[0]), acts[1..]);
    }
  }

  function TerminalWrites(written: seq<Status>): nat {
    if written == [] then 0 else (if IsTerminal(written[0]) then 1 else 0) + TerminalWrites(written[1..])
  }

  lemma {:induction false} TerminalWritesAppend(a: seq<Status>, b: seq<Status>)
    ensures TerminalWrites(a + b) == TerminalWrites(a) + TerminalWrites(b)
  {
    if a == [] {
      assert a + b == b;
    } else {
      assert (a + b)[1..] == a[1..] + b;
      TerminalWritesAppend(a[1..], b);
    }
  }

  lemma StagesAreNotTerminal(k: nat)
    requires k <= STAGES
    ensures TerminalWrites(Published(k)) == 0
  {
    if k > 0 {
      StagesAreNotTerminal(k - 1);
      PublishedGrows(k - 1);
      TerminalWritesAppend(Published(k - 1), [StageStatus(k - 1)]);
    }
  }

  /** Every run: the statuses written are the stages in order, cut off anywhere,
      and then at most one terminal status; the fields agree with it; and a
      runner that was not killed ends with exactly one terminal write. */
  lemma EveryRun(arxivUrl: string, acts: seq<Action>)
    requires IsRun(Init(arxivUrl), acts)
    ensures var s := Exec(Init(arxivUrl), acts);
            && (Landed(s.row, s.written) || FlyingBelow(s.row, s.written, STAGES + 1))
            && TerminalWrites(s.written) == (if IsTerminal(s.row.status) then 1 else 0)
            && (s.pc.Done? ==> TerminalWrites(s.written) == 1)
  {
    hide Published, TerminalWrites;
    var s := Exec(Init(arxivUrl), acts);
    InitHolds(arxivUrl);
    RunKeepsInv(Init(arxivUrl), acts);
    KilledKeeps(s);
    if Landed(s.row, s.written) {
      var k :| 0 <= k <= STAGES && s.written == Published(k) + [s.row.status];
      StagesAreNotTerminal(k);
      TerminalWritesAppend(Published(k), [s.row.status]);
      OneWrite(s.row.status);
    } else {
      var k :| 0 <= k < STAGES + 1 && Flying(s.row, s.written, k);
      StagesAreNotTerminal(k);
    }
  }

  lemma OneWrite(status: Status)
    ensures TerminalWrites([status]) == if IsTerminal(status) then 1 else 0
  {
    assert [status][1..] == [];
  }

  /** The dispatcher's fallback, when it runs at all, finds a finished job and
      writes nothing: a raised failure has been recorded before. */
  lemma FallbackWritesNothing(s: State)
    requires Inv(s) && Enabled(s, FallbackActs)
    ensures Step(s, FallbackActs).row == s.row && Step(s, FallbackActs).written == s.written
    ensures IsTerminal(s.pc.seen)
  {
  }

  /** What the row of a job in flight, or of a completed one, shows: the status, the
      step and the progress belong together in every run. */
  predicate ShowsItsStage(r: Row) {
    match r.status
    case Accepted => r.currentStep == None && r.progress == 0
    case TexFetch => r.currentStep == Some("tex_fetch") && r.progress == 10
    case Tex2Markdown => r.currentStep == Some("tex2markdown") && r.progress == 30
    case Translation => r.currentStep == Some("translation") && r.progress == 60
    case Summary => r.currentStep == Some("summary") && r.progress == 80
    case Packaging => r.currentStep == Some("packaging") && r.progress == 95
    case Completed => r.currentStep == Some("done") && r.progress == 100
    case Error => r.progress == 0
    case Cancelled => true
  }

  lemma EveryRowShowsItsStage(arxivUrl: string, acts: seq<Action>)
    requires IsRun(Init(arxivUrl), acts)
    ensures ShowsItsStage(Exec(Init(arxivUrl), acts).row)
  {
    hide Published;
    var s := Exec(Init(arxivUrl), acts);
    InitHolds(arxivUrl);
    RunKeepsInv(Init(arxivUrl), acts);
    KilledKeeps(s);
    if !IsTerminal(s.row.status) {
      var k :| 0 <= k < STAGES + 1 && Flying(s.row, s.written, k);
      FlyingShowsItsStage(s.row, k);
    }
  }

  lemma FlyingShowsItsStage(r: Row, k: nat)
    requires InFlight(r, k)
    ensures ShowsItsStage(r) && !IsTerminal(r.status)
  {
  }

  /** The flag is seen in the middle of a stage exactly while the paper is being
      translated or summarised. */
  lemma WatcherSeesFlagExactly(s: State)
    requires Inv(s)
    ensures Enabled(s, WatcherSeesFlag) <==>
            s.pc.Work? && s.row.cancelRequested && (s.row.status == Translation || s.row.status == Summary)
  {
    hide Published;
  }

  lemma SixthCharacter(why: Failure)
    ensures |MessageFor(why)| > 5
    ensures MessageFor(why)[5] == match why case PdfOnly => ' ' case Pandoc(_) => 'ー' case Other => 'i'
  {
    assert PDF_ONLY_ERROR[5] == ' ' && GENERIC_ERROR[5] == 'i' && PANDOC_ERROR[5] == 'ー';
  }

  /** The stored text tells which failure it was, down to pandoc's own words. */
  lemma TextsTellFailuresApart(a: Failure, b: Failure)
    ensures MessageFor(a) == MessageFor(b) <==> a == b
  {
    SixthCharacter(a);
    SixthCharacter(b);
    if a.Pandoc? && b.Pandoc? {
      assert (PANDOC_ERROR + a.detail)[|PANDOC_ERROR|..] == a.detail;
      assert (PANDOC_ERROR + b.detail)[|PANDOC_ERROR|..] == b.detail;
    }
  }

  // ---- Progress ----

  lemma StepKeepsProgress(s: State, a: Action)
    requires Inv(s) && Enabled(s, a)
    ensures var r := Step(s, a).row;
            r.progress >= s.row.progress || (r.status == Error && r.progress == 0)
  {
  }

  /** Progress never falls, except to 0 when the job ends in an error. */
  lemma {:induction false} ProgressNeverFalls(s: State, acts: seq<Action>)
    requires Inv(s) && IsRun(s, acts)
    ensures var r := Exec(s, acts).row;
            r.progress >= s.row.progress || (r.status == Error && r.progress == 0)
    decreases acts
  {
    if acts != [] {
      var t := Step(s, acts[0]);
      StepKeepsInv(s, acts[0]);
      StepKeepsProgress(s, acts[0]);
      ProgressNeverFalls(t, acts[1..]);
      if IsTerminal(t.row.status) {
        TerminalAbsorbs(t, acts[1..]);
      }
    }
  }

  // ---- What a cancel request achieves ----

  /** Progress writes in a run. */
  function ProgressWrites(acts: seq<Action>): nat {
    if acts == [] then 0 else (if acts[0].PublishProgress? then 1 else 0) + ProgressWrites(acts[1..])
  }

  /** After the flag is up, no run writes progress again, except for the one
      write that a checkpoint has already let through. */
  lemma {:induction false} BoundedOvershoot(s: State, acts: seq<Action>)
    requires Inv(s) && IsRun(s, acts) && s.row.cancelRequested
    ensures ProgressWrites(acts) <= if s.pc.Publish? then 1 else 0
    decreases acts
  {
    if acts != [] {
      StepKeepsInv(s, acts[0]);
      FlagStaysUp(s, acts[0]);
      BoundedOvershoot(Step(s, acts[0]), acts[1..]);
    }
  }

  lemma FlagStaysUp(s: State, a: Action)
    requires Enabled(s, a) && s.row.cancelRequested
    ensures Step(s, a).row.cancelRequested
  {
  }

  /** The checkpoint before packaging has been passed. */
  predicate PastLastCheck(pc: Pc) {
    (pc.Publish? && pc.stage == STAGES - 1) || (pc.Work? && pc.stage == STAGES - 1) || pc.Store?
  }

  lemma {:induction false} CancelledInTimeNeverCompletes(s: State, acts: seq<Action>)
    requires Inv(s) && IsRun(s, acts) && s.row.cancelRequested
    requires !PastLastCheck(s.pc) && s.row.status != Completed
    ensures Exec(s, acts).row.status != Completed && !PastLastCheck(Exec(s, acts).pc)
    decreases acts
  {
    if acts != [] {
      StepKeepsInv(s, acts[0]);
      FlagStaysUp(s, acts[0]);
      CancelledInTimeNeverCompletes(Step(s, acts[0]), acts[1..]);
    }
  }

  lemma RunsBegin(s: State, a: Action, acts: seq<Action>)
    requires Enabled(s, a) && IsRun(Step(s, a), acts)
    ensures IsRun(s, [a] + acts) && Exec(s, [a] + acts) == Exec(Step(s, a), acts)
  {
    assert ([a] + acts)[1..] == acts;
  }

  /** Behind the last checkpoint the run can go on to complete. */
  lemma CompletingRun(s: State) returns (acts: seq<Action>)
    requires PastLastCheck(s.pc)
    ensures IsRun(s, acts) && Exec(s, acts).row.status == Completed
    decreases if s.pc.Publish? then 2 else if s.pc.Work? then 1 else 0
  {
    hide IsRun, Exec;
    var a := if s.pc.Publish? then PublishProgress else if s.pc.Work? then Package("", None) else StoreResult;
    var rest := [];
    EmptyRun(Step(s, a));
    if !s.pc.Store? {
      rest := CompletingRun(Step(s, a));
    }
    RunsBegin(s, a, rest);
    acts := [a] + rest;
  }

  lemma EmptyRun(s: State)
    ensures IsRun(s, []) && Exec(s, []) == s
  {
  }

  /** With the flag up, a job in flight can still complete if and only if the
      checkpoint before packaging was passed before the flag went up. */
  lemma CompletesDespiteCancelExactly(s: State)
    requires Inv(s) && s.row.cancelRequested && !IsTerminal(s.row.status)
    ensures (exists acts :: IsRun(s, acts) && Exec(s, acts).row.status == Completed) <==> PastLastCheck(s.pc)
  {
    hide IsRun, Exec;
    if PastLastCheck(s.pc) {
      var acts := CompletingRun(s);
    } else {
      forall acts | IsRun(s, acts) ensures Exec(s, acts).row.status != Completed {
        CancelledInTimeNeverCompletes(s, acts);
      }
    }
  }

  /** A request accepted in time decides the outcome: every run that reaches its
      end from there ends cancelled, or in an error that came first. */
  lemma CancelInTimeIsHonoured(s: State, acts: seq<Action>)
    requires Inv(s) && IsRun(s, acts) && s.row.cancelRequested && !IsTerminal(s.row.status) && !PastLastCheck(s.pc)
    requires Exec(s, acts).pc.Done?
    ensures Exec(s, acts).row.status == Cancelled || Exec(s, acts).row.status == Error
  {
    RunKeepsInv(s, acts);
    CancelledInTimeNeverCompletes(s, acts);
  }
}
