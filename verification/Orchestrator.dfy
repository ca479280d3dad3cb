/** The pipeline as it is written: stage after stage over the job manager, with
    the exception handlers around it and the dispatcher behind it. Every method
    is proved to take steps of the transition system in `Pipeline`. */
module Orchestrator {
  import opened Text
  import opened JobRow
  import opened Pipeline

  // ---- The cancel route ----

  datatype Answer = NotFound | Conflict(status: Status) | Accepted202(snapshot: Row)

  /** The route up to its conditional write: it refuses by the row as it reads it. */
  method ReadForCancel(jobs: JobManager, jobId: string) returns (answer: Answer)
    ensures answer == if jobId !in jobs.table then NotFound
                      else if IsTerminal(jobs.table[jobId].status) then Conflict(jobs.table[jobId].status)
                      else Accepted202(jobs.table[jobId])
  {
    var job := jobs.GetJob(jobId);
    if job == None {
      return NotFound;
    }
    if IsTerminal(job.value.status) {
      return Conflict(job.value.status);
    }
    return Accepted202(job.value);
  }

  /** The read and the conditional write are separate row accesses, and the
      result of the write is ignored: the answer is the row as it was read. */
  method CancelJob(jobs: JobManager, jobId: string) returns (answer: Answer)
    modifies jobs
    ensures jobId !in old(jobs.table) ==> answer == NotFound && jobs.table == old(jobs.table)
    ensures jobId in old(jobs.table) ==>
              && jobs.table == old(jobs.table)[jobId := WithCancelRequest(old(jobs.table)[jobId])]
              && answer == if IsTerminal(old(jobs.table)[jobId].status) then Conflict(old(jobs.table)[jobId].status)
                           else Accepted202(old(jobs.table)[jobId])
  {
    answer := ReadForCancel(jobs, jobId);
    if answer.Accepted202? {
      var accepted := jobs.RequestCancel(jobId);
    }
  }

  // ---- The work between the row accesses ----

  datatype Foreign<T> = Yields(value: T) | Fails(why: Failure)

  /** An LLM call during which the flag is read `polls` times. */
  datatype LlmCall = LlmCall(polls: nat, ends: Foreign<string>)

  datatype Zip = Zip(url: string, localPath: Option<string>)

  /** What the foreign work of one run comes to. */
  datatype World = World(
    fetch: Foreign<string>,
    convert: Foreign<string>,
    translate: LlmCall,
    summarise: LlmCall,
    package: Foreign<Zip>)

  datatype Results = Results(
    markdownEn: Option<string>,
    markdownJa: Option<string>,
    summaryJa: Option<string>,
    downloadUrl: Option<string>)

  const NO_RESULTS: Results := Results(None, None, None, None)

  /** How the stages end: at the end, in a cancellation or in an exception. */
  datatype Ended = Succeeded | JobCancelled | Failed(why: Failure)

  /** How one stage ends. */
  datatype StageResult = Text(text: string) | StageFailed(why: Failure) | StageCancelled

  function ResultOf(work: Foreign<string>): StageResult {
    match work
    case Yields(text) => Text(text)
    case Fails(why) => StageFailed(why)
  }

  function FirstFailure(w: World): Option<Failure> {
    if w.fetch.Fails? then Some(w.fetch.why)
    else if w.convert.Fails? then Some(w.convert.why)
    else if w.translate.ends.Fails? then Some(w.translate.ends.why)
    else if w.summarise.ends.Fails? then Some(w.summarise.ends.why)
    else if w.package.Fails? then Some(w.package.why)
    else None
  }

  /** Each result is what its stage yielded, and none is there without those
      before it. */
  predicate ResultsAgree(w: World, r: Results) {
    && (r.markdownEn.Some? ==> w.fetch.Yields? && w.convert == Yields(r.markdownEn.value))
    && (r.markdownJa.Some? ==> r.markdownEn.Some? && w.translate.ends == Yields(r.markdownJa.value))
    && (r.summaryJa.Some? ==> r.markdownJa.Some? && w.summarise.ends == Yields(r.summaryJa.value))
    && (r.downloadUrl.Some? ==> r.summaryJa.Some? && w.package.Yields? && w.package.value.url == r.downloadUrl.value)
  }

  // ---- Runs of the transition system ----

  ghost predicate Reached(a: State, acts: seq<Action>, b: State) {
    IsRun(a, acts) && Exec(a, acts) == b
  }

  lemma Advance(a: State, acts: seq<Action>, b: State, x: Action)
    requires Reached(a, acts, b) && Enabled(b, x)
    ensures Reached(a, acts + [x], Step(b, x))
  {
    hide Enabled, Step;
    assert [x][1..] == [];
    assert IsRun(Step(b, x), []) && Exec(Step(b, x), []) == Step(b, x);
    assert IsRun(b, [x]) && Exec(b, [x]) == Step(b, x);
    RunsJoin(a, acts, [x]);
  }

  // ---- The runner ----

  /** What other requests do to the row between two accesses of the runner: how
      many cancel requests read it, and how many that have read it write. */
  datatype Gap = Gap(reading: nat, writing: nat)

  /** One job's runner. `arrivals` say what happens before each of its row
      accesses; `pending` requests have read the row and not written yet, however
      many accesses of the runner lie between. */
  class Runner {
    const jobs: JobManager
    const jobId: string
    var arrivals: seq<Gap>
    var pending: nat

    ghost const others: map<string, Row>
    ghost const start: State
    ghost var state: State
    ghost var acts: seq<Action>
    ghost var nextCall: nat
    ghost var writing: seq<nat>

    constructor (jobs: JobManager, jobId: string, arrivals: seq<Gap>)
      requires jobId in jobs.table && jobs.table[jobId] == NewRow(jobs.table[jobId].arxivUrl)
      ensures Valid() && this.jobs == jobs && this.jobId == jobId && this.arrivals == arrivals
      ensures start == Init(jobs.table[jobId].arxivUrl) && state == start && others == jobs.table && acts == []
    {
      this.jobs, this.jobId, this.arrivals := jobs, jobId, arrivals;
      others, start, state := jobs.table, Init(jobs.table[jobId].arxivUrl), Init(jobs.table[jobId].arxivUrl);
      acts, nextCall, pending, writing := [], 0, 0, [];
      new;
      InitHolds(jobs.table[jobId].arxivUrl);
      assert jobs.table == jobs.table[jobId := jobs.table[jobId]];
    }

    /** The steps taken so far are a run of the transition system that has led to
        `state`; the job's row is the one it has there, and no other row has
        changed. */
    ghost predicate Valid()
      reads this, jobs
    {
      && Tracked()
      && jobs.table == others[jobId := state.row]
    }

    ghost predicate Tracked()
      reads this
    {
      && Inv(state)
      && Reached(start, acts, state)
      && (forall c :: c in state.calls ==> c < nextCall)
      && |writing| == pending
      && (forall k :: 0 <= k < |writing| ==> writing[k] in state.calls && state.calls[writing[k]] == Writing)
      && (forall k, l :: 0 <= k < l < |writing| ==> writing[k] != writing[l])
    }

    /** Records that the runner has taken a step. */
    ghost method Note(a: Action)
      requires Tracked() && Enabled(state, a) && !a.RouteReads? && !a.RouteWrites?
      modifies this`state, this`acts
      ensures Tracked() && state == Step(old(state), a)
    {
      hide Inv, Reached;
      StepKeepsInv(state, a);
      Advance(start, acts, state, a);
      acts := acts + [a];
      state := Step(state, a);
    }

    /** Another request reads the row. */
    method RequestReads()
      requires Valid()
      modifies this`state, this`acts, this`nextCall, this`pending, this`writing
      ensures Valid() && state.pc == old(state.pc) && state.row == old(state.row)
    {
      hide Inv, Reached;
      var answer := ReadForCancel(jobs, jobId);
      ghost var c := nextCall;
      StepKeepsInv(state, RouteReads(c));
      Advance(start, acts, state, RouteReads(c));
      acts := acts + [RouteReads(c)];
      state := Step(state, RouteReads(c));
      nextCall := nextCall + 1;
      if answer.Accepted202? {
        pending := pending + 1;
        writing := writing + [c];
      }
    }

    /** A request that has read the row writes. */
    method RequestWrites()
      requires Valid() && pending > 0
      modifies jobs, this`state, this`acts, this`pending, this`writing
      ensures Valid() && state.pc == old(state.pc) && state.row == WithCancelRequest(old(state.row))
      ensures pending == old(pending) - 1
    {
      hide Inv, Reached;
      var accepted := jobs.RequestCancel(jobId);
      ghost var c := writing[0];
      StepKeepsInv(state, RouteWrites(c));
      Advance(start, acts, state, RouteWrites(c));
      acts := acts + [RouteWrites(c)];
      state := Step(state, RouteWrites(c));
      pending := pending - 1;
      writing := writing[1..];
      assert jobs.table == others[jobId := state.row];
    }

    /** Before the runner gets to the row, other requests get to it. */
    method LetOthersRun()
      requires Valid()
      modifies this, jobs
      ensures Valid() && state.pc == old(state.pc)
      ensures state.row == old(state.row) || state.row == WithCancelRequest(old(state.row))
      ensures NoMoreArrivals(old(arrivals)) ==> state.row == old(state.row) && NoMoreArrivals(arrivals)
    {
      hide Inv, Reached, Step, Enabled;
      var gap := Gap(0, 0);
      if arrivals != [] {
        gap := arrivals[0];
        arrivals := arrivals[1..];
      }
      var k := 0;
      while k < gap.reading
        invariant Valid() && state.pc == old(state.pc) && state.row == old(state.row)
        invariant NoMoreArrivals(old(arrivals)) ==> gap == Gap(0, 0) && NoMoreArrivals(arrivals)
      {
        RequestReads();
        k := k + 1;
      }
      k := 0;
      while k < gap.writing && pending > 0
        invariant Valid() && state.pc == old(state.pc) && 0 <= k <= gap.writing
        invariant state.row == if k == 0 then old(state.row) else WithCancelRequest(old(state.row))
        invariant NoMoreArrivals(old(arrivals)) ==> gap == Gap(0, 0) && NoMoreArrivals(arrivals)
        decreases pending
      {
        RequestWrites();
        k := k + 1;
      }
    }

    /** `_check_cancelled` before stage `k`. */
    method CheckCancelled(ghost k: nat) returns (cancelled: bool)
      requires Valid() && state.pc == Check(k)
      modifies this, jobs
      ensures Valid() && state.pc == if cancelled then WriteCancelled else Publish(k)
      ensures cancelled <==> state.row.cancelRequested
      ensures StaysQuiet(old(arrivals), old(state.row), arrivals, state.row)
    {
      hide Inv, Reached;
      LetOthersRun();
      cancelled := jobs.IsCancelRequested(jobId);
      Note(ReadFlag);
    }

    method PublishStage(k: nat)
      requires Valid() && state.pc == Publish(k) && k < STAGES
      modifies this, jobs
      ensures Valid() && state.pc == Work(k)
      ensures StaysQuiet(old(arrivals), old(state.row), arrivals, state.row)
    {
      hide Inv, Reached;
      LetOthersRun();
      jobs.UpdateProgress(jobId, StageStatus(k), StageName(k), StageProgress(k));
      Note(PublishProgress);
      assert jobs.table == others[jobId := state.row];
    }

    /** `_run_single_agent`: the call goes on until it ends or the watcher, which
        reads the flag now and then, sees it. */
    method RunSingleAgent(call: LlmCall, ghost k: nat) returns (r: StageResult)
      requires Valid() && state.pc == Work(k) && IsLlmStage(k)
      modifies this, jobs
      ensures Valid()
      ensures r == StageCancelled ==> state.pc == WriteCancelled && state.row.cancelRequested
      ensures r == StageCancelled || r == ResultOf(call.ends)
      ensures r != StageCancelled ==> state.pc == Work(k)
      ensures StaysQuiet(old(arrivals), old(state.row), arrivals, state.row)
    {
      hide Inv, Reached;
      for i := 0 to call.polls
        invariant Valid() && state.pc == Work(k)
        invariant StaysQuiet(old(arrivals), old(state.row), arrivals, state.row)
      {
        LetOthersRun();
        var seen := jobs.IsCancelRequested(jobId);
        if seen {
          Note(WatcherSeesFlag);
          return StageCancelled;
        }
      }
      r := ResultOf(call.ends);
    }

    /** Checks, publishes and enters stage `k`. */
    method EnterStage(k: nat) returns (cancelled: bool)
      requires Valid() && state.pc == Check(k) && k < STAGES
      modifies this, jobs
      ensures Valid() && state.pc == if cancelled then WriteCancelled else Work(k)
      ensures cancelled ==> state.row.cancelRequested
      ensures StaysQuiet(old(arrivals), old(state.row), arrivals, state.row)
    {
      cancelled := CheckCancelled(k);
      if !cancelled {
        PublishStage(k);
      }
    }

    ghost method FinishStage(k: nat)
      requires Valid() && state.pc == Work(k) && k + 1 < STAGES
      modifies this`state, this`acts
      ensures Valid() && state.pc == Check(k + 1) && state.row == old(state.row)
    {
      hide Inv, Reached;
      Note(Finish);
    }

    ghost method FailStage(k: nat, why: Failure)
      requires Valid() && state.pc == Work(k)
      modifies this`state, this`acts
      ensures Valid() && state.pc == ErrorFor(why) && state.row == old(state.row)
    {
      hide Inv, Reached;
      Note(Fail(why));
    }

    /** A stage whose work reads no flag. */
    method PlainStage(work: Foreign<string>, k: nat) returns (r: StageResult)
      requires Valid() && state.pc == Check(k) && k + 1 < STAGES
      modifies this, jobs
      ensures Valid() && (r == StageCancelled || r == ResultOf(work))
      ensures state.pc == match r
                          case Text(_) => Check(k + 1)
                          case StageFailed(why) => ErrorFor(why)
                          case StageCancelled => WriteCancelled
      ensures StaysQuiet(old(arrivals), old(state.row), arrivals, state.row)
      ensures r == StageCancelled ==> state.row.cancelRequested
    {
      hide Inv, Reached, NoMoreArrivals, Step, Enabled, ErrorFor, Valid, Tracked;
      var cancelled := EnterStage(k);
      if cancelled {
        return StageCancelled;
      }
      r := ResultOf(work);
      match r
      case Text(_) => FinishStage(k);
      case StageFailed(why) => FailStage(k, why);
      case StageCancelled =>
    }

    /** A stage whose work is an LLM call. */
    method AgentStage(call: LlmCall, k: nat) returns (r: StageResult)
      requires Valid() && state.pc == Check(k) && IsLlmStage(k)
      modifies this, jobs
      ensures Valid() && (r == StageCancelled || r == ResultOf(call.ends))
      ensures state.pc == match r
                          case Text(_) => Check(k + 1)
                          case StageFailed(why) => ErrorFor(why)
                          case StageCancelled => WriteCancelled
      ensures StaysQuiet(old(arrivals), old(state.row), arrivals, state.row)
      ensures r == StageCancelled ==> state.row.cancelRequested
    {
      hide Inv, Reached, NoMoreArrivals, Step, Enabled, ErrorFor, Valid, Tracked;
      var cancelled := EnterStage(k);
      if cancelled {
        return StageCancelled;
      }
      r := RunSingleAgent(call, k);
      match r
      case Text(_) => FinishStage(k);
      case StageFailed(why) => FailStage(k, why);
      case StageCancelled =>
    }

    /** The body of the `try` in `run_pipeline`. */
    method Stages(w: World) returns (results: Results, ended: Ended)
      requires Valid() && state.pc == Check(0)
      modifies this, jobs
      ensures Valid() && ResultsAgree(w, results)
      ensures match ended
              case Succeeded => state.pc == Done && state.row.status == Completed && FirstFailure(w) == None &&
                                results.downloadUrl.Some? && state.row.downloadUrl == results.downloadUrl
              case JobCancelled => state.pc == WriteCancelled && results.downloadUrl == None
              case Failed(why) => state.pc == ErrorFor(why) && FirstFailure(w) == Some(why) && results.downloadUrl == None
      ensures NoMoreArrivals(old(arrivals)) && !old(state.row.cancelRequested) ==> ended != JobCancelled
    {
      hide Inv, Reached, NoMoreArrivals, Step, Enabled, ErrorFor, Valid, Tracked;
      results := NO_RESULTS;

      // Stage 0: the source
      var fetched := PlainStage(w.fetch, 0);
      if fetched.StageCancelled? {
        return results, JobCancelled;
      }
      if fetched.StageFailed? {
        return results, Failed(fetched.why);
      }

      // Stage 1: English Markdown
      var converted := PlainStage(w.convert, 1);
      if converted.StageCancelled? {
        return results, JobCancelled;
      }
      if converted.StageFailed? {
        return results, Failed(converted.why);
      }
      results := results.(markdownEn := Some(converted.text));

      // Stage 2: translation
      var translated := AgentStage(w.translate, 2);
      if translated.StageCancelled? {
        return results, JobCancelled;
      }
      if translated.StageFailed? {
        return results, Failed(translated.why);
      }
      results := results.(markdownJa := Some(translated.text));

      // Stage 3: summary
      var summarised := AgentStage(w.summarise, 3);
      if summarised.StageCancelled? {
        return results, JobCancelled;
      }
      if summarised.StageFailed? {
        return results, Failed(summarised.why);
      }
      results := results.(summaryJa := Some(summarised.text));

      // Stage 4: packaging
      var cancelled := EnterStage(4);
      if cancelled {
        return results, JobCancelled;
      }
      if w.package.Fails? {
        FailStage(4, w.package.why);
        return results, Failed(w.package.why);
      }
      results := results.(downloadUrl := Some(w.package.value.url));
      Store(w.package.value);
      return results, Succeeded;
    }

    /** The end of the last stage: the result is stored. */
    method Store(zip: Zip)
      requires Valid() && state.pc == Work(4)
      modifies this, jobs
      ensures Valid() && state.pc == Done && state.row.status == Completed && state.row.downloadUrl == Some(zip.url)
    {
      hide Inv, Reached;
      Note(Package(zip.url, zip.localPath));
      LetOthersRun();
      jobs.SetResult(jobId, zip.url, zip.localPath);
      Note(StoreResult);
      assert jobs.table == others[jobId := state.row];
    }

    method StoreCancellation()
      requires Valid() && state.pc == WriteCancelled
      modifies this, jobs
      ensures Valid() && state.pc == Done && state.row.status == Cancelled
    {
      hide Inv, Reached;
      LetOthersRun();
      jobs.SetCancelled(jobId);
      Note(StoreCancelled);
      assert jobs.table == others[jobId := state.row];
    }

    method StoreFailure(why: Failure)
      requires Valid() && state.pc == ErrorFor(why)
      modifies this, jobs
      ensures Valid() && state.pc == (if why.Other? then Raised else Done)
      ensures state.row.status == Error && state.row.error == Some(MessageFor(why))
    {
      hide Inv, Reached;
      LetOthersRun();
      jobs.SetError(jobId, MessageFor(why));
      Note(StoreError);
      assert jobs.table == others[jobId := state.row];
    }

    lemma FinishedRow()
      requires Valid() && IsTerminal(state.row.status)
      ensures Finished(state.row)
    {
      TerminalIsFinished(state);
    }

    /** `run_pipeline`: the stages and the handlers around them. The job ends in
        the state that the first failure, or a cancel, or neither calls for, and
        only a failure of no known kind is raised again. */
    method RunPipeline(w: World) returns (results: Results, raised: bool)
      requires Valid() && state.pc == Check(0)
      modifies this, jobs
      ensures Valid() && state.pc == if raised then Raised else Done
      ensures ResultsAgree(w, results)
      ensures Finished(state.row) && state.row.downloadUrl == results.downloadUrl
      ensures state.row.status == Completed ==> FirstFailure(w) == None
      ensures state.row.status == Error ==>
                && FirstFailure(w).Some?
                && state.row.error == match FirstFailure(w).value
                                      case PdfOnly => Some("この論文は PDF 版のみ提供されており、HTML/TeX ソースがないため変換できません。")
                                      case Pandoc(detail) => Some("TeX ソースの構文を pandoc が解釈できませんでした: " + detail)
                                      case Other => Some("Pipeline execution failed")
      ensures raised <==> state.row.status == Error && FirstFailure(w) == Some(Other)
      ensures NoMoreArrivals(old(arrivals)) && !old(state.row.cancelRequested) ==> state.row.status != Cancelled
    {
      hide Inv, Reached, NoMoreArrivals, Step, Enabled, Valid, Tracked, ResultsAgree, FirstFailure, ErrorFor;
      var ended;
      results, ended := Stages(w);
      raised := false;
      match ended
      case Succeeded =>
        FinishedRow();
      case JobCancelled =>
        StoreCancellation();
        FinishedRow();
      case Failed(why) =>
        StoreFailure(why);
        FinishedRow();
        raised := why.Other?;
    }

    /** The in-process dispatcher. A raised failure has already been recorded, so
        the fallback behind it changes nothing. */
    method Dispatch(w: World)
      requires Valid() && state.pc == Check(0)
      modifies this, jobs
      ensures Valid() && state.pc == Done && Finished(state.row)
      ensures state.row.status == Error ==>
                && FirstFailure(w).Some?
                && state.row.error == match FirstFailure(w).value
                                      case PdfOnly => Some("この論文は PDF 版のみ提供されており、HTML/TeX ソースがないため変換できません。")
                                      case Pandoc(detail) => Some("TeX ソースの構文を pandoc が解釈できませんでした: " + detail)
                                      case Other => Some("Pipeline execution failed")
    {
      var results, raised := RunPipeline(w);
      if raised {
        RecordFailure();
      }
    }

    method RecordFailure()
      requires Valid() && state.pc == Raised && IsTerminal(state.row.status)
      modifies this, jobs
      ensures Valid() && state.pc == Done && state.row == old(state.row)
    {
      hide Inv, Reached;
      LetOthersRun();
      Note(FallbackReads);
      FallbackError(jobs, jobId);
      Note(FallbackActs);
      assert jobs.table == others[jobId := state.row];
    }
  }

  /** The dispatcher's last resort: a job that is still in flight is marked as
      failed, a finished one is left alone. */
  method FallbackError(jobs: JobManager, jobId: string)
    modifies jobs
    ensures jobId in old(jobs.table) && !IsTerminal(old(jobs.table)[jobId].status) ==>
              jobs.table == old(jobs.table)[jobId := WithError(old(jobs.table)[jobId], "Pipeline execution failed")]
    ensures jobId !in old(jobs.table) || IsTerminal(old(jobs.table)[jobId].status) ==> jobs.table == old(jobs.table)
  {
    var job := jobs.GetJob(jobId);
    if job.Some? && !IsTerminal(job.value.status) {
      jobs.SetError(jobId, GENERIC_ERROR);
    }
  }

  /** Where no more requests are to arrive, none will, and the flag is as it was. */
  predicate StaysQuiet(before: seq<Gap>, was: Row, after: seq<Gap>, row: Row) {
    NoMoreArrivals(before) ==> NoMoreArrivals(after) && row.cancelRequested == was.cancelRequested
  }

  predicate NoMoreArrivals(arrivals: seq<Gap>) {
    forall k :: 0 <= k < |arrivals| ==> arrivals[k] == Gap(0, 0)
  }
}
