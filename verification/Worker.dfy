/** The extension's service worker: its job table, its poll timers and the
    snapshots it hands to the browser's storage. Every method is one stretch of
    code between two `await`s. The badge and the popup's messages are not
    modelled. */
module Worker {
  import opened Text
  import opened JobRow

  datatype Shown = Processing | Complete | Errored | CancelledShown

  datatype Job = Job(
    jobId: string,
    arxivUrl: string,
    status: Shown,
    progress: nat,
    downloadUrl: Option<string>,
    error: Option<string>,
    startedAt: nat,
    cancelRequested: bool)

  /** The job table, keyed by URL. */
  type Table = map<string, Job>

  /** `timers` maps each job id with a poll timer to the URL it polls for;
      `writes` are the snapshots handed to storage, in order. */
  datatype Memory = Memory(jobs: Table, timers: map<string, string>, writes: seq<Table>)

  const STALE_JOB_THRESHOLD_MS: nat := 24 * 60 * 60 * 1000

  const DEFAULT_ERROR: string := "変換中にエラーが発生しました"

  function NewJob(jobId: string, arxivUrl: string, now: nat): Job {
    Job(jobId, arxivUrl, Processing, 0, None, None, now, false)
  }

  predicate Tracks(jobs: Table, url: string, jobId: string) {
    url in jobs && jobs[url].jobId == jobId
  }

  /** What the popup shows for an error reply: the reply's own text, if any. */
  function ErrorShown(error: Option<string>): string {
    if error.Some? && error.value != "" then error.value else DEFAULT_ERROR
  }

  predicate IsStale(job: Job, now: nat) {
    now > job.startedAt + STALE_JOB_THRESHOLD_MS
  }

  // ---- What each stretch of code does to the memory ----

  function Persisted(m: Memory): Memory {
    m.(writes := m.writes + [m.jobs])
  }

  function Stopped(m: Memory, jobId: string): Memory {
    m.(timers := m.timers - {jobId})
  }

  function Inserted(m: Memory, jobId: string, url: string, now: nat): Memory {
    var quiet := if url in m.jobs then Stopped(m, m.jobs[url].jobId) else m;
    Persisted(quiet.(jobs := m.jobs[url := NewJob(jobId, url, now)]))
  }

  /** The guard at the head of a poll. */
  function Guarded(m: Memory, jobId: string, url: string): Memory {
    if Tracks(m.jobs, url, jobId) then m else Stopped(m, jobId)
  }

  function Polling(m: Memory, jobId: string, url: string): Memory {
    Guarded(m.(timers := m.timers[jobId := url]), jobId, url)
  }

  /** A job after a status reply. */
  function Told(job: Job, row: Row): Job {
    match row.status
    case Completed => job.(status := Complete, progress := 100, downloadUrl := row.downloadUrl)
    case Error => job.(status := Errored, error := Some(ErrorShown(row.error)))
    case Cancelled => job.(status := CancelledShown, cancelRequested := false)
    case _ => job.(progress := row.progress)
  }

  function Replied(m: Memory, jobId: string, url: string, row: Row): Memory {
    if !Tracks(m.jobs, url, jobId) then m
    else
      var told := m.jobs[url := Told(m.jobs[url], row)];
      if IsTerminal(row.status) then Persisted(Stopped(m, jobId).(jobs := told)) else m.(jobs := told)
  }

  function Flagged(m: Memory, jobId: string, url: string, flag: bool): Memory {
    Persisted(if Tracks(m.jobs, url, jobId) then m.(jobs := m.jobs[url := m.jobs[url].(cancelRequested := flag)]) else m)
  }

  function Kept(stored: Table, now: nat): Table {
    map u | u in stored && !IsStale(stored[u], now) :: stored[u]
  }

  /** One timer for each job in progress. */
  function TimersFor(jobs: Table): map<string, string>
    requires WellKeyed(jobs)
  {
    map u | u in jobs && jobs[u].status == Processing :: jobs[u].jobId := u
  }

  predicate WellKeyed(jobs: Table) {
    && (forall u :: u in jobs ==> jobs[u].arxivUrl == u)
    && (forall u, v :: u in jobs && v in jobs && jobs[u].jobId == jobs[v].jobId ==> u == v)
  }

  function Restored(stored: Table, now: nat): Memory
    requires WellKeyed(stored)
  {
    var kept := Kept(stored, now);
    Memory(kept, TimersFor(kept), if kept == stored then [] else [kept])
  }

  /** A table from the single job that earlier versions stored, under a key that
      is removed then. */
  function Migrated(legacy: Job, now: nat): Memory {
    var jobs: Table := if IsStale(legacy, now) then map[] else map[legacy.arxivUrl := legacy];
    OneJobIsWellKeyed(legacy);
    Memory(jobs, TimersFor(jobs), [jobs])
  }

  lemma OneJobIsWellKeyed(job: Job)
    ensures WellKeyed(map[job.arxivUrl := job]) && WellKeyed(map[])
  {
  }

  predicate Migrates(stored: Option<Table>, legacy: Option<Job>) {
    legacy.Some? && stored.None?
  }

  // ---- The worker ----

  /** A running interval timer: what its callback polls for. */
  datatype Timer = Timer(jobId: string, url: string)

  /** The URLs polled for by the timers whose handles are kept. */
  function UrlsOf(intervals: map<string, nat>, live: map<nat, Timer>): map<string, string> {
    map j | j in intervals && intervals[j] in live :: live[intervals[j]].url
  }

  /** The timers that run are exactly those whose handles are kept, each under the
      id of the job it polls for: none has leaked. */
  ghost predicate NoneLeaks(intervals: map<string, nat>, live: map<nat, Timer>) {
    && (forall j :: j in intervals ==> intervals[j] in live && live[intervals[j]].jobId == j)
    && (forall h :: h in live ==> live[h].jobId in intervals && intervals[live[h].jobId] == h)
  }

  lemma StartingKeepsHandles(intervals: map<string, nat>, live: map<nat, Timer>, h: nat, jobId: string, url: string)
    requires NoneLeaks(intervals, live) && h !in live && jobId !in intervals
    ensures NoneLeaks(intervals[jobId := h], live[h := Timer(jobId, url)])
    ensures UrlsOf(intervals[jobId := h], live[h := Timer(jobId, url)]) == UrlsOf(intervals, live)[jobId := url]
  {
    var i, l := intervals[jobId := h], live[h := Timer(jobId, url)];
    forall j | j in intervals ensures i[j] in l && l[i[j]] == live[intervals[j]] {
      assert intervals[j] != h;
    }
    assert forall k :: k in live ==> live[k].jobId != jobId;
  }

  lemma StoppingKeepsHandles(intervals: map<string, nat>, live: map<nat, Timer>, jobId: string)
    requires NoneLeaks(intervals, live) && jobId in intervals
    ensures NoneLeaks(intervals - {jobId}, live - {intervals[jobId]})
    ensures UrlsOf(intervals - {jobId}, live - {intervals[jobId]}) == UrlsOf(intervals, live) - {jobId}
  {
    var h := intervals[jobId];
    assert live[h].jobId == jobId;
    assert forall j :: j in intervals && j != jobId ==> intervals[j] != h;
  }

  lemma NothingToStop(intervals: map<string, nat>, live: map<nat, Timer>, jobId: string)
    ensures jobId !in intervals ==> UrlsOf(intervals, live) - {jobId} == UrlsOf(intervals, live)
  {
  }

  lemma StopThenSet(timers: map<string, string>, jobId: string, url: string)
    ensures (timers - {jobId})[jobId := url] == timers[jobId := url]
  {
  }

  class ServiceWorker {
    var activeJobs: Table
    var pollingIntervals: map<string, nat>
    var writes: seq<Table>

    // The browser's interval timers, by handle.
    var live: map<nat, Timer>
    var nextHandle: nat

    ghost predicate Valid()
      reads this
    {
      NoneLeaks(pollingIntervals, live) && forall h :: h in live ==> h < nextHandle
    }

    function Contents(): Memory
      reads this
    {
      Memory(activeJobs, UrlsOf(pollingIntervals, live), writes)
    }

    /** A worker that has just been started and has restored nothing yet. */
    constructor ()
      ensures Valid() && Contents() == Memory(map[], map[], [])
    {
      activeJobs, pollingIntervals, writes := map[], map[], [];
      live, nextHandle := map[], 0;
    }

    method StopPolling(jobId: string)
      requires Valid()
      modifies this
      ensures Valid() && jobId !in pollingIntervals
      ensures Contents() == Stopped(old(Contents()), jobId)
    {
      hide NoneLeaks, UrlsOf;
      NothingToStop(pollingIntervals, live, jobId);
      if jobId in pollingIntervals {
        StoppingKeepsHandles(pollingIntervals, live, jobId);
        live := live - {pollingIntervals[jobId]};
        pollingIntervals := pollingIntervals - {jobId};
      }
    }

    method PersistActiveJobs()
      requires Valid()
      modifies this`writes
      ensures Contents() == Persisted(old(Contents()))
    {
      hide UrlsOf;
      writes := writes + [activeJobs];
    }

    /** The job table holds at most one job with an id; the search finds it. */
    method FindJobByJobId(jobId: string) returns (url: Option<string>)
      ensures url.Some? ==> Tracks(activeJobs, url.value, jobId)
      ensures url.None? ==> forall u :: u in activeJobs ==> activeJobs[u].jobId != jobId
    {
      var rest := activeJobs.Keys;
      while rest != {}
        invariant rest <= activeJobs.Keys
        invariant forall u :: u in activeJobs && u !in rest ==> activeJobs[u].jobId != jobId
        decreases |rest|
      {
        var u :| u in rest;
        if activeJobs[u].jobId == jobId {
          return Some(u);
        }
        rest := rest - {u};
      }
      return None;
    }

    /** A start is answered: an earlier job for the URL loses its timer and its
        place in the table. */
    method ConversionCreated(jobId: string, url: string, now: nat)
      requires Valid()
      modifies this
      ensures Valid() && Contents() == Inserted(old(Contents()), jobId, url, now)
      ensures activeJobs == old(activeJobs)[url := Job(jobId, url, Processing, 0, None, None, now, false)]
    {
      hide UrlsOf;
      if url in activeJobs {
        StopPolling(activeJobs[url].jobId);
      }
      activeJobs := activeJobs[url := NewJob(jobId, url, now)];
      PersistActiveJobs();
    }

    method StartPolling(jobId: string, url: string) returns (fetches: bool)
      requires Valid()
      modifies this
      ensures Valid() && Contents() == Polling(old(Contents()), jobId, url)
      ensures fetches <==> Tracks(activeJobs, url, jobId)
    {
      hide NoneLeaks, UrlsOf;
      StopPolling(jobId);
      StartingKeepsHandles(pollingIntervals, live, nextHandle, jobId, url);
      live := live[nextHandle := Timer(jobId, url)];
      pollingIntervals := pollingIntervals[jobId := nextHandle];
      nextHandle := nextHandle + 1;
      StopThenSet(old(Contents()).timers, jobId, url);
      fetches := PollJobStatus(jobId, url);
    }

    /** A poll up to its request: it goes out only for the job in the table. */
    method PollJobStatus(jobId: string, url: string) returns (fetches: bool)
      requires Valid()
      modifies this
      ensures Valid() && Contents() == Guarded(old(Contents()), jobId, url)
      ensures fetches <==> Tracks(activeJobs, url, jobId)
    {
      hide UrlsOf;
      fetches := url in activeJobs && activeJobs[url].jobId == jobId;
      if !fetches {
        StopPolling(jobId);
      }
    }

    method StatusReplied(jobId: string, url: string, row: Row)
      requires Valid()
      modifies this
      ensures Valid() && Contents() == Replied(old(Contents()), jobId, url, row)
    {
      hide UrlsOf;
      if url !in activeJobs || activeJobs[url].jobId != jobId {
        return;
      }
      if row.status == Completed {
        StopPolling(jobId);
        HandleConversionComplete(jobId, url, row.downloadUrl);
      } else if row.status == Error {
        StopPolling(jobId);
        activeJobs := activeJobs[url := activeJobs[url].(status := Errored, error := Some(ErrorShown(row.error)))];
        PersistActiveJobs();
      } else if row.status == Cancelled {
        StopPolling(jobId);
        activeJobs := activeJobs[url := activeJobs[url].(status := CancelledShown, cancelRequested := false)];
        PersistActiveJobs();
      } else {
        activeJobs := activeJobs[url := activeJobs[url].(progress := row.progress)];
      }
    }

    method HandleConversionComplete(jobId: string, url: string, downloadUrl: Option<string>)
      requires Valid()
      modifies this`activeJobs, this`writes
      ensures var m := old(Contents());
              if Tracks(m.jobs, url, jobId) then
                var done := m.jobs[url].(status := Complete, progress := 100, downloadUrl := downloadUrl);
                Contents() == Persisted(m.(jobs := m.jobs[url := done]))
              else Contents() == m
    {
      hide UrlsOf;
      if url in activeJobs && activeJobs[url].jobId == jobId {
        activeJobs := activeJobs[url := activeJobs[url].(status := Complete, progress := 100, downloadUrl := downloadUrl)];
        PersistActiveJobs();
      }
    }

    /** A cancel up to its request: it goes out only for a job in progress. */
    method CancelConversion(jobId: string) returns (url: Option<string>)
      requires Valid()
      modifies this`activeJobs, this`writes
      ensures url.Some? ==> var m := old(Contents());
                            && Tracks(m.jobs, url.value, jobId) && m.jobs[url.value].status == Processing
                            && Contents() == Flagged(m, jobId, url.value, true)
      ensures url.None? ==> Contents() == old(Contents())
      ensures url.None? && WellKeyed(activeJobs) ==>
                forall u :: Tracks(activeJobs, u, jobId) ==> activeJobs[u].status != Processing
    {
      hide UrlsOf;
      url := FindJobByJobId(jobId);
      if url == None || activeJobs[url.value].status != Processing {
        return None;
      }
      activeJobs := activeJobs[url.value := activeJobs[url.value].(cancelRequested := true)];
      PersistActiveJobs();
    }

    /** The cancel was refused or lost: the flag is taken back. A job that has
        been replaced meanwhile is no longer in the table. */
    method CancelFailed(jobId: string, url: string)
      requires Valid()
      modifies this`activeJobs, this`writes
      ensures Contents() == Flagged(old(Contents()), jobId, url, false)
    {
      hide UrlsOf;
      if url in activeJobs && activeJobs[url].jobId == jobId {
        activeJobs := activeJobs[url := activeJobs[url].(cancelRequested := false)];
      }
      PersistActiveJobs();
    }

    /** After a start of the worker: a job of an earlier version is taken over, or
        else fresh jobs come back, and those in progress are polled again.
        `fetching` are the URLs a first request goes out for. */
    method RestoreActiveJobs(stored: Option<Table>, legacy: Option<Job>, now: nat)
      returns (fetching: set<string>, removesLegacy: bool)
      requires Valid() && Contents() == Memory(map[], map[], []) && (stored.Some? ==> WellKeyed(stored.value))
      modifies this
      ensures Valid() && (removesLegacy <==> Migrates(stored, legacy))
      ensures Contents() == if Migrates(stored, legacy) then Migrated(legacy.value, now)
                            else Restored(if stored.Some? then stored.value else map[], now)
      ensures fetching == InProgress(activeJobs)
      ensures stored.Some? ==>
                forall u :: u in stored.value ==>
                  && (u in activeJobs <==> now <= stored.value[u].startedAt + 86400000)
                  && (u in activeJobs ==> activeJobs[u] == stored.value[u])
      ensures stored.None? && legacy.Some? ==>
                activeJobs == if now <= legacy.value.startedAt + 86400000 then map[legacy.value.arxivUrl := legacy.value] else map[]
    {
      hide TimersFor, UrlsOf, Kept;
      removesLegacy := legacy.Some? && stored.None?;
      if removesLegacy {
        OneJobIsWellKeyed(legacy.value);
        if !IsStale(legacy.value, now) {
          activeJobs := activeJobs[legacy.value.arxivUrl := legacy.value];
        }
        PersistActiveJobs();
      } else {
        var table := if stored.Some? then stored.value else map[];
        LoadFresh(table, now);
        KeptIsWellKeyed(table, now);
      }
      if stored.Some? {
        KeptExactly(stored.value, now);
      }
      fetching := ResumePolling();
    }

    method LoadFresh(stored: Table, now: nat)
      requires Valid() && Contents() == Memory(map[], map[], [])
      modifies this`activeJobs, this`writes
      ensures var kept := Kept(stored, now);
              Contents() == Memory(kept, map[], if kept == stored then [] else [kept])
    {
      hide UrlsOf;
      var rest := stored.Keys;
      var pruned := false;
      while rest != {}
        invariant rest <= stored.Keys && writes == []
        invariant forall u :: u in activeJobs <==> u in stored && u !in rest && !IsStale(stored[u], now)
        invariant forall u :: u in activeJobs ==> activeJobs[u] == stored[u]
        invariant pruned <==> exists u :: u in stored && u !in rest && IsStale(stored[u], now)
        decreases |rest|
      {
        var u :| u in rest;
        if IsStale(stored[u], now) {
          pruned := true;
        } else {
          activeJobs := activeJobs[u := stored[u]];
        }
        rest := rest - {u};
      }
      assert activeJobs == Kept(stored, now);
      KeptMisses(stored, now);
      if pruned {
        PersistActiveJobs();
      }
    }

    method ResumePolling() returns (fetching: set<string>)
      requires Valid() && WellKeyed(activeJobs) && Contents().timers == map[]
      modifies this
      ensures Valid() && Contents() == old(Contents()).(timers := TimersFor(old(activeJobs)))
      ensures fetching == InProgress(old(activeJobs))
    {
      hide TimersFor, InProgress, HasTimers, WellKeyed, UrlsOf, Valid;
      ghost var m := Contents();
      fetching := {};
      var rest := activeJobs.Keys;
      ghost var done: set<string> := {};
      NoTimers(activeJobs);
      while rest != {}
        invariant done + rest == m.jobs.Keys && done !! rest && Valid()
        invariant Contents() == m.(timers := Contents().timers)
        invariant HasTimers(m.jobs, done, Contents().timers)
        invariant forall u :: u in fetching <==> u in done && m.jobs[u].status == Processing
        decreases |rest|
      {
        var u :| u in rest;
        TimersGrow(m.jobs, done, Contents().timers, u);
        if activeJobs[u].status == Processing {
          UrlIsKey(m.jobs, u);
          PollingTracked(Contents(), activeJobs[u].jobId, u);
          var fetches := StartPolling(activeJobs[u].jobId, activeJobs[u].arxivUrl);
          fetching := fetching + {u};
        }
        rest := rest - {u};
        done := done + {u};
      }
      assert done == m.jobs.Keys;
      TimersAreComplete(m.jobs, Contents().timers);
      InProgressIs(m.jobs, fetching);
    }
  }

  // ---- Proofs about restoring ----

  function InProgress(jobs: Table): set<string> {
    set u | u in jobs && jobs[u].status == Processing
  }

  lemma InProgressIs(jobs: Table, urls: set<string>)
    requires forall u :: u in urls <==> u in jobs && jobs[u].status == Processing
    ensures urls == InProgress(jobs)
  {
  }

  /** The timers of the jobs in progress among `urls`. */
  ghost predicate HasTimers(jobs: Table, urls: set<string>, timers: map<string, string>) {
    && (forall u :: u in urls && u in jobs && jobs[u].status == Processing ==>
          jobs[u].jobId in timers && timers[jobs[u].jobId] == u)
    && (forall j :: j in timers ==>
          timers[j] in urls && Tracks(jobs, timers[j], j) && jobs[timers[j]].status == Processing)
  }

  lemma NoTimers(jobs: Table)
    ensures HasTimers(jobs, {}, map[])
  {
  }

  lemma UrlIsKey(jobs: Table, u: string)
    requires WellKeyed(jobs) && u in jobs
    ensures jobs[u].arxivUrl == u
  {
  }

  lemma PollingTracked(m: Memory, jobId: string, url: string)
    requires Tracks(m.jobs, url, jobId)
    ensures Polling(m, jobId, url) == m.(timers := m.timers[jobId := url])
  {
  }

  lemma TimersGrow(jobs: Table, urls: set<string>, timers: map<string, string>, u: string)
    requires WellKeyed(jobs) && HasTimers(jobs, urls, timers) && u in jobs && u !in urls
    ensures HasTimers(jobs, urls + {u}, if jobs[u].status == Processing then timers[jobs[u].jobId := u] else timers)
  {
  }

  lemma TimersAreComplete(jobs: Table, timers: map<string, string>)
    requires WellKeyed(jobs) && HasTimers(jobs, jobs.Keys, timers)
    ensures timers == TimersFor(jobs)
  {
    var all := TimersFor(jobs);
    forall j | j in all ensures j in timers && timers[j] == all[j] {
      assert Tracks(jobs, all[j], j) && jobs[all[j]].status == Processing;
    }
    forall j | j in timers ensures j in all {
      assert jobs[timers[j]].jobId == j;
    }
  }

  lemma KeptIsWellKeyed(stored: Table, now: nat)
    requires WellKeyed(stored)
    ensures WellKeyed(Kept(stored, now))
  {
  }

  /** A restart keeps the jobs that were started no more than a day ago, as they
      are. */
  lemma KeptExactly(stored: Table, now: nat)
    ensures Kept(stored, now).Keys <= stored.Keys
    ensures forall u :: u in stored ==>
              && (u in Kept(stored, now) <==> now <= stored[u].startedAt + 86400000)
              && (u in Kept(stored, now) ==> Kept(stored, now)[u] == stored[u])
  {
  }

  lemma KeptMisses(stored: Table, now: nat)
    ensures Kept(stored, now) != stored <==> exists u :: u in stored && IsStale(stored[u], now)
  {
    if u :| u in stored && IsStale(stored[u], now) {
      assert u !in Kept(stored, now);
    } else {
      assert Kept(stored, now) == stored;
    }
  }
}
