/** The job row and the operations of the job manager on it. Timestamps, TTL and
    display messages are not modelled. */
module JobRow {
  import opened Text

  datatype Status =
    | Accepted | TexFetch | Tex2Markdown | Translation | Summary | Packaging
    | Completed | Error | Cancelled

  /** `TERMINAL_STATUSES`. */
  predicate IsTerminal(s: Status) {
    s == Completed || s == Error || s == Cancelled
  }

  datatype Row = Row(
    status: Status,
    arxivUrl: string,
    currentStep: Option<string>,
    progress: nat,
    downloadUrl: Option<string>,
    localResultPath: Option<string>,
    error: Option<string>,
    cancelRequested: bool)

  function NewRow(arxivUrl: string): Row {
    Row(Accepted, arxivUrl, None, 0, None, None, None, false)
  }

  function WithProgress(r: Row, status: Status, step: string, progress: nat): Row {
    r.(status := status, currentStep := Some(step), progress := progress)
  }

  function WithResult(r: Row, url: string, path: Option<string>): Row {
    r.(status := Completed, progress := 100, currentStep := Some("done"), downloadUrl := Some(url),
       localResultPath := if path.Some? then path else r.localResultPath)
  }

  function WithError(r: Row, error: string): Row {
    r.(status := Error, progress := 0, error := Some(error))
  }

  /** The conditional write: it takes effect only on a row that is in flight. */
  function WithCancelRequest(r: Row): Row {
    if IsTerminal(r.status) then r else r.(cancelRequested := true)
  }

  function WithCancelled(r: Row): Row {
    r.(status := Cancelled)
  }

  /** `JobManager` over its table. Every operation is one atomic row access. */
  class JobManager {
    var table: map<string, Row>

    constructor ()
      ensures table == map[]
    {
      table := map[];
    }

    /** The random job id is chosen outside; it is new to the table. */
    method CreateJob(jobId: string, arxivUrl: string)
      requires jobId !in table
      modifies this
      ensures table == old(table)[jobId := NewRow(arxivUrl)]
      ensures table[jobId] == Row(Accepted, arxivUrl, None, 0, None, None, None, false)
    {
      table := table[jobId := NewRow(arxivUrl)];
    }

    method GetJob(jobId: string) returns (job: Option<Row>)
      ensures job == if jobId in table then Some(table[jobId]) else None
    {
      job := if jobId in table then Some(table[jobId]) else None;
    }

    method UpdateProgress(jobId: string, status: Status, step: string, progress: nat)
      requires jobId in table
      modifies this
      ensures table == old(table)[jobId := WithProgress(old(table)[jobId], status, step, progress)]
    {
      table := table[jobId := table[jobId].(status := status, currentStep := Some(step), progress := progress)];
    }

    method SetResult(jobId: string, url: string, path: Option<string>)
      requires jobId in table
      modifies this
      ensures table == old(table)[jobId := WithResult(old(table)[jobId], url, path)]
    {
      var row := table[jobId].(status := Completed, progress := 100, currentStep := Some("done"),
                               downloadUrl := Some(url));
      if path.Some? {
        row := row.(localResultPath := path);
      }
      table := table[jobId := row];
    }

    method SetError(jobId: string, error: string)
      requires jobId in table
      modifies this
      ensures table == old(table)[jobId := WithError(old(table)[jobId], error)]
    {
      table := table[jobId := table[jobId].(status := Error, progress := 0, error := Some(error))];
    }

    /** The result says whether the condition held; the flag is set exactly then. */
    method RequestCancel(jobId: string) returns (accepted: bool)
      requires jobId in table
      modifies this
      ensures table == old(table)[jobId := WithCancelRequest(old(table)[jobId])]
      ensures accepted <==> !IsTerminal(old(table)[jobId].status)
    {
      var status := table[jobId].status;
      accepted := status != Completed && status != Error && status != Cancelled;
      if accepted {
        table := table[jobId := table[jobId].(cancelRequested := true)];
      }
    }

    method IsCancelRequested(jobId: string) returns (requested: bool)
      ensures requested <==> jobId in table && table[jobId].cancelRequested
    {
      requested := jobId in table && table[jobId].cancelRequested;
    }

    method SetCancelled(jobId: string)
      requires jobId in table
      modifies this
      ensures table == old(table)[jobId := WithCancelled(old(table)[jobId])]
    {
      table := table[jobId := table[jobId].(status := Cancelled)];
    }
  }
}
