/** Which runs of a job there are: it can be carried to its end, a dead runner
    writes nothing, and every write of a request has its read before it. */
module PipelineRuns {
  import opened Text
  import opened JobRow
  import opened Pipeline

  // ---- A job can be carried to its end ----

  /** The runner is at a stage, or about to store the result `url`. */
  predicate IsUnderWay(s: State, url: string) {
    match s.pc
    case Check(k) => k < STAGES && !s.row.cancelRequested
    case Publish(k) => k < STAGES
    case Work(k) => k < STAGES
    case Store(u, _) => u == url
    case _ => false
  }

  function Ahead(s: State): nat {
    match s.pc
    case Check(k) => if k < STAGES then (STAGES - k) * 3 + 1 else 0
    case Publish(k) => if k < STAGES then (STAGES - k) * 3 else 0
    case Work(k) => if k < STAGES then (STAGES - k) * 3 - 1 else 0
    case _ => 1
  }

  function Onward(s: State, url: string): Action {
    match s.pc
    case Check(_) => ReadFlag
    case Publish(_) => PublishProgress
    case Work(k) => if k + 1 < STAGES then Finish else Package(url, None)
    case _ => StoreResult
  }

  lemma OnwardIsCloser(s: State, url: string)
    requires IsUnderWay(s, url) && !s.row.cancelRequested
    ensures Enabled(s, Onward(s, url))
    ensures var t := Step(s, Onward(s, url));
            if s.pc.Store? then t.row.status == Completed && t.row.downloadUrl == Some(url)
            else IsUnderWay(t, url) && !t.row.cancelRequested && Ahead(t) < Ahead(s)
  {
  }

  /** A job whose flag is not raised can be carried to its end with any URL. */
  lemma {:induction false} CanComplete(s: State, url: string) returns (acts: seq<Action>)
    requires IsUnderWay(s, url) && !s.row.cancelRequested
    ensures IsRun(s, acts) && Exec(s, acts).row.status == Completed && Exec(s, acts).row.downloadUrl == Some(url)
    decreases Ahead(s)
  {
    hide IsRun, Exec, Step, Enabled, Onward, Ahead, IsUnderWay;
    OnwardIsCloser(s, url);
    var t := Step(s, Onward(s, url));
    var rest := [];
    if s.pc.Store? {
      EmptyRun(t);
    } else {
      rest := CanComplete(t, url);
    }
    RunsBegin(s, Onward(s, url), rest);
    acts := [Onward(s, url)] + rest;
  }

  // ---- A dead runner ----

  lemma DeadStep(s: State, a: Action)
    requires s.pc == Killed && Enabled(s, a)
    ensures var t := Step(s, a);
            t.pc == Killed && t.written == s.written && t.row == s.row.(cancelRequested := t.row.cancelRequested)
  {
  }

  lemma {:induction false} DeadRun(s: State, acts: seq<Action>)
    requires s.pc == Killed && IsRun(s, acts)
    ensures var t := Exec(s, acts);
            t.written == s.written && t.row == s.row.(cancelRequested := t.row.cancelRequested)
    decreases acts
  {
    hide Step, Enabled;
    if acts != [] {
      DeadStep(s, acts[0]);
      DeadRun(Step(s, acts[0]), acts[1..]);
    }
  }

  /** When a runner dies, nothing of its row changes any more but
      the flag. */
  lemma DeadRunnerWritesNothing(s: State, acts: seq<Action>)
    requires Enabled(s, Kill) && IsRun(Step(s, Kill), acts)
    ensures var t := Exec(Step(s, Kill), acts);
            t.written == s.written && t.row == s.row.(cancelRequested := t.row.cancelRequested)
  {
    DeadRun(Step(s, Kill), acts);
  }

  // ---- A failure that was raised ----

  /** Whether the handler at the top swallows a raised failure or the fallback runs, the
      job is done and its row is the same. */
  lemma RaisedEndsAlike(s: State)
    requires Inv(s) && s.pc == Raised
    ensures Enabled(s, HandlerSwallows) && IsRun(s, [FallbackReads, FallbackActs])
    ensures Step(s, HandlerSwallows).pc == Done && Exec(s, [FallbackReads, FallbackActs]).pc == Done
    ensures Step(s, HandlerSwallows).row == Exec(s, [FallbackReads, FallbackActs]).row == s.row
  {
    var t := Step(s, FallbackReads);
    StepKeepsInv(s, FallbackReads);
    FallbackWritesNothing(t);
    assert [FallbackReads, FallbackActs][1..] == [FallbackActs];
    assert [FallbackActs][1..] == [];
    EmptyRun(Step(t, FallbackActs));
  }

  // ---- Requests ----

  lemma CallsBehind(s: State, a: Action, c: nat)
    requires Enabled(s, a) && c in Step(s, a).calls
    ensures c in s.calls || a == RouteReads(c)
  {
  }

  lemma WritesAreOpen(s: State, c: nat)
    requires Enabled(s, RouteWrites(c))
    ensures c in s.calls && s.calls[c] == Writing
  {
  }

  /** In every run, the write of a request has the read of the same request before it. */
  lemma {:induction false} WritesAreRead(s: State, acts: seq<Action>, k: nat) returns (i: nat)
    requires IsRun(s, acts) && k < |acts| && acts[k].RouteWrites? && acts[k].call !in s.calls
    ensures i < k && acts[i] == RouteReads(acts[k].call)
    decreases acts
  {
    hide Step, Enabled;
    var c := acts[k].call;
    if k == 0 {
      WritesAreOpen(s, c);
      assert false;
    } else if acts[0] == RouteReads(c) {
      i := 0;
    } else {
      var t := Step(s, acts[0]);
      if c in t.calls {
        CallsBehind(s, acts[0], c);
      }
      var j := WritesAreRead(t, acts[1..], k - 1);
      i := j + 1;
    }
  }
}
