/** Retry and cancel of a processing job by the admin or the console, racing with each other, with the
    workers that drive the job and with the reconciler of stale jobs. Every action reads the row first and
    commits through a guarded transaction later. */
module AdminJobs {
  import opened Prelude

  datatype Status = Pending | Processing | Succeeded | Failed | Canceled

  datatype Log =
    | RetryLog(previousStatus: Status)
    | CancelLog(previousStatus: Status)
    | WorkerCancelLog
    | ReconcileLog

  /** The row of one job. */
  datatype Job = Job(status: Status, retryCount: nat, cancelRequestedAt: Option<int>,
                     startedAt: Option<int>, completedAt: Option<int>, updatedAt: int)

  /** An admin or console action between its read and its transaction. */
  datatype Action = RetryAction(seen: Status, now: int) | CancelAction(seen: Status, now: int)

  /** The row, the logs and build events written for it, and the actions still open. The last two fields
      are history: how often the job has entered FAILED or CANCELED, and which of those episodes each
      committed retry ended. */
  datatype State = State(job: Job, logs: seq<Log>, buildEvents: nat, open: seq<Action>,
                         episodes: nat, retried: seq<nat>)

  predicate Retryable(s: Status) {
    s.Failed? || s.Canceled?
  }

  predicate Active(s: Status) {
    s.Pending? || s.Processing?
  }

  // ----- The guarded updates, as the database applies them -----

  function Retried(j: Job, now: int): Job {
    if Retryable(j.status) then Job(Pending, j.retryCount + 1, None, None, None, now) else j
  }

  function CancelRequested(j: Job, now: int): Job {
    if !Active(j.status) then j
    else j.(status := if j.status.Pending? then Canceled else j.status,
            cancelRequestedAt := Some(now),
            completedAt := if j.status.Pending? then Some(now) else j.completedAt,
            updatedAt := now)
  }

  /** A worker update guarded on an active job without a cancel request. */
  predicate Unhindered(j: Job) {
    Active(j.status) && j.cancelRequestedAt.None?
  }

  function Started(j: Job, now: int): Job {
    if Unhindered(j) then j.(status := Processing, startedAt := Some(now), updatedAt := now) else j
  }

  function Progressed(j: Job, now: int): Job {
    if Unhindered(j) then j.(updatedAt := now) else j
  }

  function Finished(j: Job, result: Status, now: int): Job {
    if Unhindered(j) then j.(status := result, completedAt := Some(now), updatedAt := now) else j
  }

  function WorkerCanceled(j: Job, now: int): Job {
    if Active(j.status) || j.status.Canceled?
    then j.(status := Canceled, completedAt := Some(now), updatedAt := now)
    else j
  }

  /** The reconciler asks only whether the job is active and was last touched before the cutoff. */
  predicate Reconcilable(j: Job, cutoff: int) {
    Active(j.status) && j.updatedAt < cutoff
  }

  function Reconciled(j: Job, cutoff: int, now: int): Job {
    if Reconcilable(j, cutoff) then j.(status := Failed, completedAt := Some(now), updatedAt := now) else j
  }

  // ----- Steps -----

  datatype Step =
    | BeginRetry(now: int)
    | BeginCancel(now: int)
    | Commit(id: nat)
    | WorkerStart(now: int)
    | WorkerProgress(now: int)
    | WorkerSucceed(now: int)
    | WorkerFail(now: int)
    | WorkerCancel(now: int)
    | Reconcile(now: int, staleMs: nat)

  /** An action begins only past its own status check. */
  predicate Enabled(s: State, step: Step) {
    match step
    case BeginRetry(_) => Retryable(s.job.status)
    case BeginCancel(_) => Active(s.job.status)
    case Commit(id) => id < |s.open|
    case _ => true
  }

  function Closed(open: seq<Action>, id: nat): seq<Action>
    requires id < |open|
  {
    open[..id] + open[id + 1..]
  }

  /** The job becomes j: entering FAILED or CANCELED from an active status opens an episode. */
  function Move(s: State, j: Job): State {
    s.(job := j, episodes := s.episodes + if Active(s.job.status) && Retryable(j.status) then 1 else 0)
  }

  function CommitAction(s: State, a: Action): State {
    match a
    case RetryAction(seen, now) =>
      if Retryable(s.job.status)
      then Move(s, Retried(s.job, now)).(logs := s.logs + [RetryLog(seen)],
                                         buildEvents := s.buildEvents + 1,
                                         retried := s.retried + [s.episodes])
      else s
    case CancelAction(seen, now) =>
      var j := CancelRequested(s.job, now);
      // the previous status is worked out from the updated row
      if Active(s.job.status)
      then Move(s, j).(logs := s.logs + [CancelLog(if j.status.Canceled? then Pending else j.status)])
      else s
  }

  function Apply(s: State, step: Step): State
    requires Enabled(s, step)
  {
    match step
    case BeginRetry(now) => s.(open := s.open + [RetryAction(s.job.status, now)])
    case BeginCancel(now) => s.(open := s.open + [CancelAction(s.job.status, now)])
    case Commit(id) => CommitAction(s, s.open[id]).(open := Closed(s.open, id))
    case WorkerStart(now) => Move(s, Started(s.job, now))
    case WorkerProgress(now) => Move(s, Progressed(s.job, now))
    case WorkerSucceed(now) => Move(s, Finished(s.job, Succeeded, now))
    case WorkerFail(now) => Move(s, Finished(s.job, Failed, now))
    case WorkerCancel(now) => Move(s, WorkerCanceled(s.job, now)).(logs := s.logs + [WorkerCancelLog])
    case Reconcile(now, staleMs) =>
      Move(s, Reconciled(s.job, now - staleMs, now))
        .(logs := s.logs + if Reconcilable(s.job, now - staleMs) then [ReconcileLog] else [])
  }

  predicate Admissible(s: State, run: seq<Step>)
    decreases |run|
  {
    run == [] || (Enabled(s, run[0]) && Admissible(Apply(s, run[0]), run[1..]))
  }

  function Execute(s: State, run: seq<Step>): State
    requires Admissible(s, run)
    decreases |run|
  {
    if run == [] then s else Execute(Apply(s, run[0]), run[1..])
  }

  /** A job as it is inserted. */
  function New(): State {
    State(Job(Pending, 0, None, None, None, 0), [], 0, [], 0, [])
  }

  // ----- The transactions, as methods on a row -----

  /** The row, its logs and its build events behind the two transactions of the admin actions. */
  class JobTable {
    var job: Job
    var logs: seq<Log>
    var buildEvents: nat

    /** retryProcessingJobAction after its check: all of it commits, or nothing does. */
    method CommitRetry(seen: Status, now: int) returns (transitioned: bool)
      modifies this
      ensures transitioned == Retryable(old(job.status))
      ensures job == Retried(old(job), now)
      ensures logs == old(logs) + (if transitioned then [RetryLog(seen)] else [])
      ensures buildEvents == old(buildEvents) + (if transitioned then 1 else 0)
    {
      if job.status != Failed && job.status != Canceled {
        return false;
      }
      job := job.(status := Pending, retryCount := job.retryCount + 1, cancelRequestedAt := None,
                  startedAt := None, completedAt := None, updatedAt := now);
      logs := logs + [RetryLog(seen)];
      buildEvents := buildEvents + 1;
      return true;
    }

    /** cancelProcessingJobAction after its check. The logged previous status is worked out from the
        updated row, and is the true one whatever the action had read. */
    method CommitCancel(now: int) returns (transitioned: bool)
      modifies this
      ensures transitioned == Active(old(job.status))
      ensures job == CancelRequested(old(job), now) && buildEvents == old(buildEvents)
      ensures logs == old(logs) + (if transitioned then [CancelLog(old(job.status))] else [])
    {
      if job.status != Pending && job.status != Processing {
        return false;
      }
      var wasPending := job.status == Pending;
      job := job.(status := if wasPending then Canceled else job.status, cancelRequestedAt := Some(now),
                  completedAt := if wasPending then Some(now) else job.completedAt, updatedAt := now);
      var previous := if job.status == Canceled then Pending else job.status;
      logs := logs + [CancelLog(previous)];
      return true;
    }
  }

  // ----- What every step keeps -----

  function IsRetryLog(l: Log): int {
    if l.RetryLog? then 1 else 0
  }

  ghost predicate Consistent(s: State) {
    // a pending job is clean
    && (s.job.status.Pending? ==> s.job.cancelRequestedAt.None? && s.job.completedAt.None?)
    // a job that ended is dated
    && (!Active(s.job.status) ==> s.job.completedAt.Some?)
    // counts agree
    && s.job.retryCount == s.buildEvents == |s.retried| == Sum(s.logs, IsRetryLog)
    // episodes are retried in the order they arose, each once, and only a present one not yet
    && (forall i :: 0 <= i < |s.retried| ==> s.retried[i] == i + 1)
    && s.episodes == |s.retried| + (if Retryable(s.job.status) then 1 else 0)
  }

  lemma LogAppends(logs: seq<Log>, l: Log)
    ensures Sum(logs + [l], IsRetryLog) == Sum(logs, IsRetryLog) + IsRetryLog(l)
  {
    SumAppend(logs, l, IsRetryLog);
  }

  lemma RetryKeepsConsistent(s: State, seen: Status, now: int)
    requires Consistent(s)
    ensures Consistent(CommitAction(s, RetryAction(seen, now)))
  {
    LogAppends(s.logs, RetryLog(seen));
  }

  lemma CancelKeepsConsistent(s: State, seen: Status, now: int)
    requires Consistent(s)
    ensures Consistent(CommitAction(s, CancelAction(seen, now)))
  {
    var j := CancelRequested(s.job, now);
    LogAppends(s.logs, CancelLog(if j.status.Canceled? then Pending else j.status));
  }

  lemma StepKeepsConsistent(s: State, step: Step)
    requires Consistent(s) && Enabled(s, step)
    ensures Consistent(Apply(s, step))
  {
    match step {
      case Commit(id) =>
        match s.open[id] {
          case RetryAction(seen, now) => RetryKeepsConsistent(s, seen, now);
          case CancelAction(seen, now) => CancelKeepsConsistent(s, seen, now);
        }
      case WorkerCancel(_) => LogAppends(s.logs, WorkerCancelLog);
      case Reconcile(now, staleMs) =>
        LogAppends(s.logs, ReconcileLog);
        assert s.logs + [] == s.logs;
      case _ =>
    }
  }

  lemma {:induction false} RunKeepsConsistent(s: State, run: seq<Step>)
    requires Consistent(s) && Admissible(s, run)
    ensures Consistent(Execute(s, run))
    decreases |run|
  {
    if run != [] {
      StepKeepsConsistent(s, run[0]);
      RunKeepsConsistent(Apply(s, run[0]), run[1..]);
    }
  }

  // ----- Main results -----

  /** In every interleaving: each FAILED or CANCELED episode is retried at most once, in the order they
      arose, and every episode but a present one has been retried exactly once. */
  lemma EpisodesAreRetriedOnce(run: seq<Step>)
    requires Admissible(New(), run)
    ensures var s := Execute(New(), run);
            && (forall i, j :: 0 <= i < j < |s.retried| ==> s.retried[i] != s.retried[j])
            && (forall e :: 1 <= e <= s.episodes ==>
                  (e in s.retried <==> !(Retryable(s.job.status) && e == s.episodes)))
  {
    RunKeepsConsistent(New(), run);
    var s := Execute(New(), run);
    forall e | 1 <= e <= s.episodes
      ensures e in s.retried <==> !(Retryable(s.job.status) && e == s.episodes)
    {
      if e <= |s.retried| {
        assert s.retried[e - 1] == e;
      }
    }
  }

  /** In every interleaving the retry count, the retry logs and the build events emitted by retries are
      equally many. */
  lemma RetriesAreCounted(run: seq<Step>)
    requires Admissible(New(), run)
    ensures var s := Execute(New(), run);
            s.job.retryCount == s.buildEvents == Sum(s.logs, IsRetryLog)
  {
    RunKeepsConsistent(New(), run);
  }

  /** In every interleaving a pending job carries neither a cancel request nor a completion time. */
  lemma PendingIsClean(run: seq<Step>)
    requires Admissible(New(), run)
    ensures var j := Execute(New(), run).job;
            j.status.Pending? ==> j.cancelRequestedAt.None? && j.completedAt.None?
  {
    RunKeepsConsistent(New(), run);
  }

  /** A succeeded job is final: no run changes its row, its build events or its retries again. */
  lemma {:induction false} SucceededIsFinal(s: State, run: seq<Step>)
    requires s.job.status.Succeeded? && Admissible(s, run)
    ensures Execute(s, run).job == s.job && Execute(s, run).buildEvents == s.buildEvents
    decreases |run|
  {
    if run != [] {
      SucceededIsFinal(Apply(s, run[0]), run[1..]);
    }
  }

  /** The step on which the job first leaves PROCESSING in a run, and the status it leaves with. */
  function FirstEnd(s: State, run: seq<Step>): Option<(Step, Status)>
    requires Admissible(s, run)
    decreases |run|
  {
    if run == [] then None
    else
      var t := Apply(s, run[0]);
      if s.job.status.Processing? && !t.job.status.Processing? then Some((run[0], t.job.status))
      else FirstEnd(t, run[1..])
  }

  /** What comes first in the rest of a run: nothing that matters, a worker that gives the job up, or a
      reconciliation whose cutoff is past the time the job was last touched. A further cancellation touches
      it again; nothing else does while a cancel is requested. */
  datatype First = Neither | GivenUp | ReconciledStale

  function FirstToAct(s: State, run: seq<Step>, touched: int): First
    requires Admissible(s, run)
    decreases |run|
  {
    if run == [] then Neither
    else
      var t, rest := Apply(s, run[0]), run[1..];
      match run[0]
      case WorkerCancel(_) => GivenUp
      case Reconcile(now, staleMs) => if touched < now - staleMs then ReconciledStale else FirstToAct(t, rest, touched)
      case Commit(id) => FirstToAct(t, rest, if s.open[id].CancelAction? then s.open[id].now else touched)
      case _ => FirstToAct(t, rest, touched)
  }

  /** A running job with a cancel request ends as FAILED exactly when a reconciliation with a cutoff past its
      last request comes before a worker gives it up, and as CANCELED exactly when the worker comes first; it
      never succeeds and no worker fails it. While nothing has ended it, the request stands. */
  lemma {:induction false} RequestedCancelPrevails(s: State, run: seq<Step>)
    requires s.job.status.Processing? && s.job.cancelRequestedAt.Some? && Admissible(s, run)
    ensures match FirstEnd(s, run)
            case None =>
              var t := Execute(s, run);
              t.job.status.Processing? && t.job.cancelRequestedAt.Some? && t.episodes == s.episodes
            case Some(end) =>
              && end.0 in run
              && (end.1 == Canceled <==> !end.0.Reconcile?)
              && (end.1 == Failed <==> end.0.Reconcile?)
    ensures match FirstToAct(s, run, s.job.updatedAt)
            case Neither => FirstEnd(s, run).None?
            case GivenUp => FirstEnd(s, run).Some? && FirstEnd(s, run).value.1 == Canceled
            case ReconciledStale => FirstEnd(s, run).Some? && FirstEnd(s, run).value.1 == Failed
    decreases |run|
  {
    if run != [] {
      var t := Apply(s, run[0]);
      if t.job.status.Processing? {
        RequestedCancelPrevails(t, run[1..]);
      }
    }
  }

  /** In every run the last touch of a running job with a cancel request is its last request. */
  lemma {:induction false} RequestIsLastTouch(s: State, run: seq<Step>)
    requires Admissible(s, run)
    requires s.job.status.Processing? && s.job.cancelRequestedAt.Some? ==>
               s.job.cancelRequestedAt == Some(s.job.updatedAt)
    requires Consistent(s)
    ensures var j := Execute(s, run).job;
            j.status.Processing? && j.cancelRequestedAt.Some? ==> j.cancelRequestedAt == Some(j.updatedAt)
    decreases |run|
  {
    if run != [] {
      StepKeepsConsistent(s, run[0]);
      RequestIsLastTouch(Apply(s, run[0]), run[1..]);
    }
  }

  /** The reconciler does end such a job: a worker starts the job, an admin cancels it, the worker dies, and
      the stale job is reconciled to FAILED with the request still on it. */
  lemma CanceledJobCanFail() returns (run: seq<Step>)
    ensures Admissible(New(), run)
    ensures var t := Execute(New(), run);
            t.job.status.Failed? && t.job.cancelRequestedAt == Some(2) && t.episodes == 1
  {
    var running := Job(Processing, 0, None, Some(1), None, 1);
    var requested := running.(cancelRequestedAt := Some(2), updatedAt := 2);
    var failed := requested.(status := Failed, completedAt := Some(100), updatedAt := 100);
    var s1 := State(running, [], 0, [], 0, []);
    var s2 := s1.(open := [CancelAction(Processing, 2)]);
    var s3 := State(requested, [CancelLog(Processing)], 0, [], 0, []);
    var s4 := State(failed, [CancelLog(Processing), ReconcileLog], 0, [], 1, []);
    run := RunCons(s3, Reconcile(100, 60), [], s4, s4);
    run := RunCons(s2, Commit(0), run, s3, s4);
    run := RunCons(s1, BeginCancel(2), run, s2, s4);
    run := RunCons(New(), WorkerStart(1), run, s1, s4);
  }

  /** The previous status in a cancel log is always the status the transaction found. The one in a retry
      log is what the action read earlier: it is the status the transaction found exactly when that has
      not changed since. */
  lemma CommitLogsPreviousStatus(s: State, id: nat)
    requires id < |s.open|
    ensures var t := Apply(s, Commit(id));
            && (s.open[id].CancelAction? && Active(s.job.status) ==>
                  t.logs == s.logs + [CancelLog(s.job.status)])
            && (s.open[id].RetryAction? && Retryable(s.job.status) ==>
                  (t.logs == s.logs + [RetryLog(s.job.status)] <==> s.open[id].seen == s.job.status))
  {
    var a := s.open[id];
    if a.RetryAction? && Retryable(s.job.status) {
      assert (s.logs + [RetryLog(a.seen)])[|s.logs|] == RetryLog(a.seen);
      assert (s.logs + [RetryLog(s.job.status)])[|s.logs|] == RetryLog(s.job.status);
    }
  }

  /** A run in which a retry logs FAILED although it ends a CANCELED episode: two admins read the failure,
      the first retries, the pending job is canceled, and the second retry commits. */
  lemma RetryLogCanBeStale() returns (run: seq<Step>)
    ensures Admissible(New(), run)
    ensures Execute(New(), run).logs == [RetryLog(Failed), CancelLog(Pending), RetryLog(Failed)]
  {
    var failed := Job(Failed, 0, None, None, Some(1), 1);
    var retry, cancel := RetryAction(Failed, 2), CancelAction(Pending, 3);
    var logs := [RetryLog(Failed), CancelLog(Pending)];
    var s1 := State(failed, [], 0, [], 1, []);
    var s2 := State(failed, [], 0, [retry], 1, []);
    var s3 := State(failed, [], 0, [retry, retry], 1, []);
    var s4 := State(Job(Pending, 1, None, None, None, 2), [RetryLog(Failed)], 1, [retry], 1, [1]);
    var s5 := s4.(open := [retry, cancel]);
    var s6 := State(Job(Canceled, 1, Some(3), None, Some(3), 3), logs, 1, [retry], 2, [1]);
    var s7 := State(Job(Pending, 2, None, None, None, 2), logs + [RetryLog(Failed)], 2, [], 2, [1, 2]);
    run := RunCons(s6, Commit(0), [], s7, s7);
    run := RunCons(s5, Commit(1), run, s6, s7);
    run := RunCons(s4, BeginCancel(3), run, s5, s7);
    run := RunCons(s3, Commit(0), run, s4, s7);
    run := RunCons(s2, BeginRetry(2), run, s3, s7);
    run := RunCons(s1, BeginRetry(2), run, s2, s7);
    run := RunCons(New(), WorkerFail(1), run, s1, s7);
  }

  lemma RunCons(s: State, step: Step, rest: seq<Step>, next: State, end: State) returns (run: seq<Step>)
    requires Enabled(s, step) && Apply(s, step) == next && Admissible(next, rest) && Execute(next, rest) == end
    ensures run == [step] + rest && Admissible(s, run) && Execute(s, run) == end
  {
    run := [step] + rest;
    assert run[1..] == rest;
  }
}
