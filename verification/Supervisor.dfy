/** The self-host supervisor's operations: one lock a state directory inside one process, requests that
    interleave at every await, and the record files they write and read. */
module Supervisor {
  import opened Prelude
  import opened RecordPaths
  import opened Text

  datatype Kind = Preflight | Backup | UpgradeApply | UpgradeRollback

  datatype Status = Pending | Running | Succeeded | Failed

  /** The value of an operation's record, as it is held in memory and as it is persisted. */
  datatype Operation = Operation(kind: Kind, status: Status, logs: seq<string>, error: Option<string>, completed: bool)

  // ----- The synchronous stretches of runOperation -----

  const ALREADY_RUNNING := "Another supervisor operation is already running."

  function NewOperation(kind: Kind): Operation {
    Operation(kind, Pending, [], None, false)
  }

  function Failing(op: Operation, message: string): Operation {
    op.(status := Status.Failed, error := Some(message), logs := op.logs + [message])
  }

  /** From the call of runOperation to its first await. */
  function Entered(held: set<Path>, dir: Path, op: Operation): (set<Path>, Operation) {
    if dir in held then (held, Failing(op, ALREADY_RUNNING).(completed := true))
    else (held + {dir}, op.(status := Running))
  }

  /** From the end of the task to the last await, whichever way the task ended. */
  function Left(held: set<Path>, dir: Path, op: Operation, failure: Option<string>): (set<Path>, Operation) {
    var ended := if failure.Some? then Failing(op, failure.value) else op.(status := Succeeded);
    (held - {dir}, ended.(completed := true))
  }

  /** The record of one operation, updated in place. */
  class OperationRecord {
    const kind: Kind
    var status: Status
    var logs: seq<string>
    var error: Option<string>
    var completed: bool

    function Value(): Operation
      reads this
    {
      Operation(kind, status, logs, error, completed)
    }

    constructor (kind: Kind)
      ensures Value() == NewOperation(kind)
    {
      this.kind, status, logs, error, completed := kind, Pending, [], None, false;
    }
  }

  /** The process-wide set of active operation locks, keyed by state directory. */
  class OperationLocks {
    var held: set<Path>

    /** The lock is tested and taken in one stretch. */
    method Enter(dir: Path, record: OperationRecord) returns (entered: bool)
      modifies this, record
      ensures (held, record.Value()) == Entered(old(held), dir, old(record.Value()))
      ensures entered == (dir !in old(held))
    {
      if dir in held {
        record.status := Failed;
        record.error := Some(ALREADY_RUNNING);
        record.logs := record.logs + [ALREADY_RUNNING];
        record.completed := true;
        return false;
      }
      held := held + {dir};
      record.status := Running;
      return true;
    }

    /** The outcome is set and the lock freed in one stretch. */
    method Leave(dir: Path, record: OperationRecord, failure: Option<string>)
      modifies this, record
      ensures (held, record.Value()) == Left(old(held), dir, old(record.Value()), failure)
    {
      match failure {
        case None => record.status := Succeeded;
        case Some(message) =>
          record.status := Failed;
          record.error := failure;
          record.logs := record.logs + [message];
      }
      held := held - {dir};
      record.completed := true;
    }
  }

  // ----- The step system -----

  /** How far a request has come:
      past the early check; an apply that has found its backup; created; refused by the lock and not yet
      reported; holding the lock with the RUNNING record not yet written; running its task; ended and not
      yet reported; done; or stuck because the RUNNING record could not be written. */
  datatype Phase = Accepted | BackupFound | Created | Refused | Locked | Tasking | Ended | Done | Stuck

  /** A request at a state directory: its record in memory and the file it is written to, and the id of the
      backup that an apply names. */
  datatype Request = Request(dir: Path, operation: Operation, file: Option<Path>, backup: Option<string>,
                             phase: Phase, taskCompleted: bool)

  /** The files that parse as operation records, wherever they lie. */
  datatype State = State(requests: seq<Request>, locks: set<Path>, files: map<Path, Operation>)

  datatype Step =
    | Arrive(dir: Path, kind: Kind)
    | FindBackup(i: nat, id: string)
    | Create(i: nat, id: string)
    | EnterRun(i: nat)
    | WriteRunning(i: nat)
    | FailRunningWrite(i: nat, written: bool)   // it may fail before or after the file has changed
    | RunCommand(i: nat, output: seq<string>)
    | EndTask(i: nat, failure: Option<string>)
    | Report(i: nat)

  /** A request that holds the lock of its directory. */
  predicate Holds(r: Request) {
    r.phase.Locked? || r.phase.Tasking? || r.phase.Stuck?
  }

  predicate IsGoodBackup(files: map<Path, Operation>, p: Path) {
    p in files && files[p].kind.Backup? && files[p].status.Succeeded?
  }

  function Index(step: Step): Option<nat> {
    match step
    case Arrive(_, _) => None
    case FindBackup(i, _) => Some(i)
    case Create(i, _) => Some(i)
    case EnterRun(i) => Some(i)
    case WriteRunning(i) => Some(i)
    case FailRunningWrite(i, _) => Some(i)
    case RunCommand(i, _) => Some(i)
    case EndTask(i, _) => Some(i)
    case Report(i) => Some(i)
  }

  predicate Enabled(s: State, step: Step) {
    match step
    case Arrive(dir, kind) => kind.Preflight? || dir !in s.locks
    case _ =>
      var i := Index(step).value;
      i < |s.requests| &&
      var r := s.requests[i];
      match step
      case FindBackup(_, id) =>
        r.phase.Accepted? && r.operation.kind.UpgradeApply? && IsGoodBackup(s.files, RecordPath(r.dir, id))
      case Create(_, id) =>
        // a random identifier names no file yet
        && (if r.operation.kind.UpgradeApply? then r.phase.BackupFound? else r.phase.Accepted?)
        && SlashFree(id) && RecordPath(r.dir, id) !in s.files
      case EnterRun(_) => r.phase.Created?
      case WriteRunning(_) => r.phase.Locked?
      case FailRunningWrite(_, _) => r.phase.Locked?
      case RunCommand(_, _) => r.phase.Tasking?
      case EndTask(_, _) => r.phase.Tasking?
      case _ => r.phase.Ended? || r.phase.Refused?
  }

  /** The request's record is written to its file, if it has one yet. */
  function Written(s: State, i: nat, r: Request): State
    requires i < |s.requests|
  {
    s.(requests := s.requests[i := r], files := if r.file.Some? then s.files[r.file.value := r.operation] else s.files)
  }

  function Apply(s: State, step: Step): State
    requires Enabled(s, step)
  {
    match step
    case Arrive(dir, kind) =>
      s.(requests := s.requests + [Request(dir, NewOperation(kind), None, None, Accepted, false)])
    case FindBackup(i, id) => s.(requests := s.requests[i := s.requests[i].(backup := Some(id), phase := BackupFound)])
    case Create(i, id) =>
      Written(s, i, s.requests[i].(file := Some(RecordPath(s.requests[i].dir, id)), phase := Created))
    case EnterRun(i) =>
      var r := s.requests[i];
      var (locks, operation) := Entered(s.locks, r.dir, r.operation);
      s.(requests := s.requests[i := r.(phase := if r.dir in s.locks then Refused else Locked, operation := operation)],
         locks := locks)
    case WriteRunning(i) => Written(s, i, s.requests[i].(phase := Tasking))
    case FailRunningWrite(i, written) =>
      var r := s.requests[i].(phase := Stuck);
      if written then Written(s, i, r) else s.(requests := s.requests[i := r])
    case RunCommand(i, output) =>
      var r := s.requests[i];
      s.(requests := s.requests[i := r.(operation := r.operation.(logs := r.operation.logs + output))])
    case EndTask(i, failure) =>
      var r := s.requests[i];
      var (locks, operation) := Left(s.locks, r.dir, r.operation, failure);
      s.(requests := s.requests[i := r.(phase := Ended, operation := operation, taskCompleted := failure.None?)],
         locks := locks)
    case Report(i) => Written(s, i, s.requests[i].(phase := Done))
  }

  predicate Admissible(s: State, run: seq<Step>)
    decreases |run|
  {
    run == [] || (Enabled(s, run[0]) && Admissible(Apply(s, run[0]), run[1..]))
  }

  function Execute(s: State, run: seq<Step>): State
    requires Admissible(s, run)
    decreases |run|
  {
    if run == [] then s else Execute(Apply(s, run[0]), run[1..])
  }

  /** A fresh process: no request, no lock, and whatever files there are. */
  predicate Start(s: State) {
    s.requests == [] && s.locks == {}
  }

  // ----- What every step keeps -----

  /** The request at an index holds the lock of a directory. */
  predicate HoldsAt(s: State, i: int, dir: Path) {
    0 <= i < |s.requests| && Holds(s.requests[i]) && s.requests[i].dir == dir
  }

  /** The lock set is exactly the directories of the requests that hold one, and no two hold the same. */
  ghost predicate LocksMatch(s: State) {
    && (forall i, dir :: HoldsAt(s, i, dir) ==> dir in s.locks)
    && (forall dir :: dir in s.locks ==> exists i :: HoldsAt(s, i, dir))
    && (forall i, j, dir :: HoldsAt(s, i, dir) && HoldsAt(s, j, dir) ==> i == j)
  }

  /** A failed operation names its reason, last in its log. */
  predicate Explained(op: Operation) {
    op.status.Failed? ==> op.completed && op.error.Some? && op.logs != [] && op.logs[|op.logs| - 1] == op.error.value
  }

  /** The record of a request follows its phase. */
  predicate Coherent(r: Request) {
    && (r.phase.Locked? || r.phase.Tasking? || r.phase.Stuck? ==> r.operation.status.Running?)
    && (r.phase.Accepted? || r.phase.BackupFound? || r.phase.Created? ==> r.operation == NewOperation(r.operation.kind))
    && (r.phase.Refused? ==> r.operation.status.Failed? && !r.taskCompleted)
    && (r.phase.Ended? || r.phase.Done? ==> r.operation.status.Succeeded? || r.operation.status.Failed?)
    && (r.operation.status.Succeeded? <==> r.taskCompleted)
    && (r.operation.completed <==> r.phase.Refused? || r.phase.Ended? || r.phase.Done?)
    && Explained(r.operation)
    && (r.operation.kind.UpgradeApply? && !r.phase.Accepted? ==> r.backup.Some?)
    && (r.file.None? <==> r.phase.Accepted? || r.phase.BackupFound?)
    && (r.file.Some? ==> InFolder(r.dir, r.file.value))
  }

  /** The request at an index writes its record to this file. */
  predicate Owns(s: State, i: int, p: Path) {
    0 <= i < |s.requests| && s.requests[i].file == Some(p)
  }

  ghost predicate OwnedByNone(s: State, p: Path) {
    forall i :: !Owns(s, i, p)
  }

  /** Every request has its own file, and what is in it is the request's record: new until the task runs,
      then running, and in the end what the record became. */
  ghost predicate RecordsMatch(s: State) {
    && (forall i, j, p :: Owns(s, i, p) && Owns(s, j, p) ==> i == j)
    && (forall i, p :: Owns(s, i, p) ==>
          && p in s.files
          && var r := s.requests[i];
             && s.files[p].kind == r.operation.kind
             && (if r.phase.Done? then s.files[p] == r.operation
                 else s.files[p].status.Pending? || s.files[p].status.Running?))
  }

  ghost predicate BackupsMatch(s: State) {
    forall i :: 0 <= i < |s.requests| && s.requests[i].backup.Some? ==>
      IsGoodBackup(s.files, RecordPath(s.requests[i].dir, s.requests[i].backup.value))
  }

  ghost predicate Safe(s: State) {
    LocksMatch(s) && RecordsMatch(s) && BackupsMatch(s) && AllCoherent(s)
  }

  /** Every step but entering a run and ending a task leaves locks and holders as they are. */
  lemma QuietStep(s: State, step: Step)
    requires Enabled(s, step) && !step.EnterRun? && !step.EndTask?
    ensures Apply(s, step).locks == s.locks
    ensures forall i, dir :: HoldsAt(Apply(s, step), i, dir) <==> HoldsAt(s, i, dir)
  {
  }

  lemma EnterMovesLock(s: State, i: nat)
    requires Enabled(s, EnterRun(i))
    ensures var t := Apply(s, EnterRun(i)); var free := s.requests[i].dir !in s.locks;
            && t.locks == s.locks + {s.requests[i].dir}
            && (forall j, dir :: HoldsAt(t, j, dir) <==>
                  HoldsAt(s, j, dir) || (free && j == i && dir == s.requests[i].dir))
  {
  }

  lemma EndMovesLock(s: State, i: nat, failure: Option<string>)
    requires Enabled(s, EndTask(i, failure))
    ensures var t := Apply(s, EndTask(i, failure));
            && t.locks == s.locks - {s.requests[i].dir}
            && (forall j, dir :: HoldsAt(t, j, dir) <==> HoldsAt(s, j, dir) && j != i)
  {
  }

  lemma StepKeepsLocks(s: State, step: Step)
    requires LocksMatch(s) && Enabled(s, step)
    ensures LocksMatch(Apply(s, step))
  {
    if step.EnterRun? {
      EnterMovesLock(s, step.i);
      if s.requests[step.i].dir !in s.locks {
        assert HoldsAt(Apply(s, step), step.i, s.requests[step.i].dir);
      }
    } else if step.EndTask? {
      EndMovesLock(s, step.i, step.failure);
      assert HoldsAt(s, step.i, s.requests[step.i].dir);
    } else {
      QuietStep(s, step);
    }
  }

  lemma StepKeepsCoherent(r: Request, s: State, step: Step)
    requires Enabled(s, step) && Index(step).Some? && r == s.requests[Index(step).value] && Coherent(r)
    ensures Coherent(Apply(s, step).requests[Index(step).value])
  {
    if step.Create? {
      PlainIdStaysInFolder(r.dir, step.id);
    }
  }

  ghost predicate AllCoherent(s: State) {
    forall i :: 0 <= i < |s.requests| ==> Coherent(s.requests[i])
  }

  lemma StepKeepsAllCoherent(s: State, step: Step)
    requires AllCoherent(s) && Enabled(s, step)
    ensures AllCoherent(Apply(s, step))
  {
    if Index(step).Some? {
      StepKeepsCoherent(s.requests[Index(step).value], s, step);
    }
  }

  /** Who owns which file after a step: who did before, and a creation's own new one. */
  lemma StepMovesOwners(s: State, step: Step)
    requires RecordsMatch(s) && Enabled(s, step)
    ensures var t := Apply(s, step);
            && (forall i, p :: Owns(t, i, p) <==>
                  if step.Create? && i == step.i then p == RecordPath(s.requests[step.i].dir, step.id)
                  else Owns(s, i, p))
            && (step.Create? ==> OwnedByNone(s, RecordPath(s.requests[step.i].dir, step.id)))
  {
  }

  /** A step writes no file but that of the request it moves. */
  lemma StepWritesOwnFile(s: State, step: Step, p: Path)
    requires Enabled(s, step) && AllCoherent(s)
    requires p in Apply(s, step).files && !(p in s.files && Apply(s, step).files[p] == s.files[p])
    ensures Index(step).Some? && Owns(Apply(s, step), Index(step).value, p)
    ensures Apply(s, step).files[p] == Apply(s, step).requests[Index(step).value].operation
  {
  }

  /** A step leaves the file and the request of every other owner as they are. */
  lemma StepKeepsOthers(s: State, step: Step, i: nat, p: Path)
    requires RecordsMatch(s) && Enabled(s, step) && Owns(s, i, p) && Index(step) != Some(i)
    ensures var t := Apply(s, step);
            Owns(t, i, p) && t.requests[i] == s.requests[i] && p in t.files && t.files[p] == s.files[p]
  {
    if Index(step).Some? {
      var m := Index(step).value;
      assert s.requests[m].file.Some? ==> Owns(s, m, s.requests[m].file.value);
    }
  }

  /** A step leaves the file of the request it moves matching that request's record. */
  lemma StepKeepsMover(s: State, step: Step, p: Path)
    requires RecordsMatch(s) && AllCoherent(s) && Enabled(s, step) && Index(step).Some?
    requires Owns(Apply(s, step), Index(step).value, p)
    ensures var t := Apply(s, step); var r := t.requests[Index(step).value];
            && p in t.files && t.files[p].kind == r.operation.kind
            && (if r.phase.Done? then t.files[p] == r.operation
                else t.files[p].status.Pending? || t.files[p].status.Running?)
  {
    var i := Index(step).value;
    StepKeepsCoherent(s.requests[i], s, step);
    assert Coherent(s.requests[i]);
    assert !step.Create? ==> Owns(s, i, p);
  }

  lemma StepKeepsRecords(s: State, step: Step)
    requires RecordsMatch(s) && AllCoherent(s) && Enabled(s, step)
    ensures RecordsMatch(Apply(s, step)) && AllCoherent(Apply(s, step))
  {
    var t := Apply(s, step);
    StepKeepsAllCoherent(s, step);
    StepMovesOwners(s, step);
    forall i, p | Owns(t, i, p)
      ensures p in t.files
      ensures t.files[p].kind == t.requests[i].operation.kind
      ensures if t.requests[i].phase.Done? then t.files[p] == t.requests[i].operation
              else t.files[p].status.Pending? || t.files[p].status.Running?
    {
      if Index(step) == Some(i) {
        StepKeepsMover(s, step, p);
      } else {
        StepKeepsOthers(s, step, i, p);
      }
    }
  }

  /** A SUCCEEDED record is never overwritten. */
  lemma SucceededRecordStays(s: State, step: Step, p: Path)
    requires RecordsMatch(s) && AllCoherent(s) && Enabled(s, step)
    requires p in s.files && s.files[p].status.Succeeded?
    ensures p in Apply(s, step).files && Apply(s, step).files[p] == s.files[p]
  {
    if Index(step).Some? {
      var i := Index(step).value;
      assert s.requests[i].file.Some? ==> Owns(s, i, s.requests[i].file.value);
      assert Coherent(s.requests[i]);
    }
  }

  lemma StepKeepsBackups(s: State, step: Step)
    requires RecordsMatch(s) && AllCoherent(s) && BackupsMatch(s) && Enabled(s, step)
    ensures BackupsMatch(Apply(s, step))
  {
    var t := Apply(s, step);
    forall i | 0 <= i < |t.requests| && t.requests[i].backup.Some?
      ensures IsGoodBackup(t.files, RecordPath(t.requests[i].dir, t.requests[i].backup.value))
    {
      var p := RecordPath(t.requests[i].dir, t.requests[i].backup.value);
      assert IsGoodBackup(s.files, p);
      SucceededRecordStays(s, step, p);
    }
  }

  /** A file that no request owns stays as it is through every run, and stays nobody's; a file that appears
      is some request's own. */
  lemma {:induction false} OtherFilesStay(s: State, run: seq<Step>, p: Path)
    requires Safe(s) && Admissible(s, run) && OwnedByNone(s, p)
    ensures var t := Execute(s, run);
            && (p in s.files ==> p in t.files && t.files[p] == s.files[p] && OwnedByNone(t, p))
            && (p in t.files && p !in s.files ==> exists i :: Owns(t, i, p))
    decreases |run|
  {
    if run != [] {
      var t := Apply(s, run[0]);
      StepKeepsSafe(s, run[0]);
      StepMovesOwners(s, run[0]);
      if p in t.files && !(p in s.files && t.files[p] == s.files[p]) {
        StepWritesOwnFile(s, run[0], p);
        OwnersStay(t, run[1..], Index(run[0]).value, p);
      } else if OwnedByNone(t, p) {
        OtherFilesStay(t, run[1..], p);
      }
    }
  }

  lemma {:induction false} OwnersStay(s: State, run: seq<Step>, i: nat, p: Path)
    requires Safe(s) && Admissible(s, run) && Owns(s, i, p)
    ensures Owns(Execute(s, run), i, p)
    decreases |run|
  {
    if run != [] {
      StepKeepsSafe(s, run[0]);
      StepMovesOwners(s, run[0]);
      assert Coherent(s.requests[i]);
      OwnersStay(Apply(s, run[0]), run[1..], i, p);
    }
  }

  lemma StepKeepsSafe(s: State, step: Step)
    requires Safe(s) && Enabled(s, step)
    ensures Safe(Apply(s, step))
  {
    StepKeepsLocks(s, step);
    StepKeepsRecords(s, step);
    StepKeepsBackups(s, step);
  }

  lemma {:induction false} RunKeepsSafe(s: State, run: seq<Step>)
    requires Safe(s) && Admissible(s, run)
    ensures Safe(Execute(s, run))
    decreases |run|
  {
    if run != [] {
      StepKeepsSafe(s, run[0]);
      RunKeepsSafe(Apply(s, run[0]), run[1..]);
    }
  }

  // ----- Main results -----

  /** In every interleaving at most one operation's task runs in a state directory, however many requests
      passed the early check together. */
  lemma OneTaskAtATime(s: State, run: seq<Step>)
    requires Start(s) && Admissible(s, run)
    ensures var t := Execute(s, run);
            forall i, j :: 0 <= i < j < |t.requests| && t.requests[i].phase.Tasking? && t.requests[j].phase.Tasking?
              ==> t.requests[i].dir != t.requests[j].dir
  {
    RunKeepsSafe(s, run);
    var t := Execute(s, run);
    forall i, j | 0 <= i < j < |t.requests| && t.requests[i].phase.Tasking? && t.requests[j].phase.Tasking?
      ensures t.requests[i].dir != t.requests[j].dir
    {
      assert HoldsAt(t, i, t.requests[i].dir) && HoldsAt(t, j, t.requests[j].dir);
    }
  }

  /** Once no operation is starting or running its task, a directory's lock is still held if and only if the
      RUNNING record of one of its operations could not be written; every operation that ended its task or
      was done has SUCCEEDED or FAILED; and if every RUNNING record was written the lock is free. */
  lemma LockIsFreeWhenDone(s: State, run: seq<Step>, dir: Path)
    requires Start(s) && Admissible(s, run)
    requires forall r :: r in Execute(s, run).requests ==> !r.phase.Locked? && !r.phase.Tasking?
    ensures var t := Execute(s, run);
            && (dir in t.locks <==> exists r :: r in t.requests && r.phase.Stuck? && r.dir == dir)
            && (forall r :: r in t.requests && (r.phase.Ended? || r.phase.Done?) ==>
                  r.operation.status.Succeeded? || r.operation.status.Failed?)
            && ((forall step :: step in run ==> !step.FailRunningWrite?) ==> dir !in t.locks)
  {
    RunKeepsSafe(s, run);
    var t := Execute(s, run);
    if dir in t.locks {
      var i :| HoldsAt(t, i, dir);
      assert t.requests[i] in t.requests;
    }
    if r :| r in t.requests && r.phase.Stuck? && r.dir == dir {
      var i :| 0 <= i < |t.requests| && t.requests[i] == r;
      assert HoldsAt(t, i, dir);
    }
    if forall step :: step in run ==> !step.FailRunningWrite? {
      NothingSticks(s, run);
    }
  }

  lemma {:induction false} NothingSticks(s: State, run: seq<Step>)
    requires Admissible(s, run) && forall step :: step in run ==> !step.FailRunningWrite?
    requires forall r :: r in s.requests ==> !r.phase.Stuck?
    ensures forall r :: r in Execute(s, run).requests ==> !r.phase.Stuck?
    decreases |run|
  {
    if run != [] {
      assert run[0] in run;
      var t := Apply(s, run[0]);
      forall r | r in t.requests ensures !r.phase.Stuck? {
        var i :| 0 <= i < |t.requests| && t.requests[i] == r;
        if i < |s.requests| {
          assert s.requests[i] in s.requests;
        }
      }
      assert forall step :: step in run[1..] ==> step in run;
      NothingSticks(t, run[1..]);
    }
  }

  /** No upgrade task without a backup: whenever an upgrade's task runs, or has run, the id it named leads to
      a SUCCEEDED backup record, which was there before this process or is that of a backup request of it
      whose task has completed and which has reported. That backup is one of the upgrade's own directory if
      and only if the id's path lies in that directory's operations folder. */
  lemma UpgradeFollowsBackup(s: State, run: seq<Step>, i: nat)
    requires Start(s) && Admissible(s, run)
    requires i < |Execute(s, run).requests|
    requires var r := Execute(s, run).requests[i];
             r.operation.kind.UpgradeApply? && (r.phase.Tasking? || r.phase.Ended? || r.phase.Done?)
    ensures var t := Execute(s, run); var r := t.requests[i];
            && r.backup.Some?
            && var p := RecordPath(r.dir, r.backup.value);
               && IsGoodBackup(t.files, p)
               && (IsGoodBackup(s.files, p) || exists j :: Owns(t, j, p))
               && (forall j :: Owns(t, j, p) ==>
                     && t.requests[j].operation.kind.Backup? && t.requests[j].phase.Done? && t.requests[j].taskCompleted
                     && (t.requests[j].dir == r.dir <==> InFolder(r.dir, p)))
  {
    RunKeepsSafe(s, run);
    var t := Execute(s, run);
    var r := t.requests[i];
    assert Coherent(r);
    var p := RecordPath(r.dir, r.backup.value);
    OtherFilesStay(s, run, p);
    forall j | Owns(t, j, p)
      ensures t.requests[j].operation.kind.Backup? && t.requests[j].phase.Done? && t.requests[j].taskCompleted
      ensures t.requests[j].dir == r.dir <==> InFolder(r.dir, p)
    {
      assert Coherent(t.requests[j]);
      FoldersAreDisjoint(t.requests[j].dir, r.dir, p);
    }
  }

  /** An id without slashes, such as every id this process gives out, names a record of the directory. */
  lemma PlainBackupIsOwn(s: State, run: seq<Step>, i: nat)
    requires Start(s) && Admissible(s, run)
    requires i < |Execute(s, run).requests|
    requires var r := Execute(s, run).requests[i];
             && r.operation.kind.UpgradeApply? && (r.phase.Tasking? || r.phase.Ended? || r.phase.Done?)
             && (r.backup.Some? ==> SlashFree(r.backup.value))
    ensures var t := Execute(s, run); var r := t.requests[i];
            && r.backup.Some?
            && var p := Folder(r.dir) + [r.backup.value + ".json"];
               && IsGoodBackup(t.files, p)
               && (IsGoodBackup(s.files, p)
                   || exists j :: Owns(t, j, p) && t.requests[j].dir == r.dir && t.requests[j].taskCompleted)
  {
    UpgradeFollowsBackup(s, run, i);
    var r := Execute(s, run).requests[i];
    PlainIdStaysInFolder(r.dir, r.backup.value);
  }

  /** The run of one created request, up to its task. */
  lemma CreatedUpToTask(r: Request, mine: Path, files: map<Path, Operation>) returns (run: seq<Step>)
    requires r.phase.Created? && r.file == Some(mine)
    ensures var s, running := State([r], {}, files), r.operation.(status := Running);
            && Admissible(s, run)
            && Execute(s, run) == State([r.(operation := running, phase := Tasking)], {r.dir}, files[mine := running])
  {
    var s, running := State([r], {}, files), r.operation.(status := Running);
    var locked := State([r.(operation := running, phase := Locked)], {r.dir}, files);
    assert Apply(s, EnterRun(0)) == locked by { assert {} + {r.dir} == {r.dir}; }
    run := RunCons(locked, WriteRunning(0), [],
                   State([r.(operation := running, phase := Tasking)], {r.dir}, files[mine := running]));
    run := RunCons(s, EnterRun(0), run, locked);
  }

  /** The run of one upgrade, up to its task, on a backup record at another file. */
  lemma UpgradeUpToTask(dir: Path, id: string, p: Path, backup: Operation, mine: Path)
    returns (s: State, run: seq<Step>)
    requires RecordPath(dir, id) == p && RecordPath(dir, "0") == mine && mine != p
    requires backup.kind.Backup? && backup.status.Succeeded?
    ensures Start(s) && s.files == map[p := backup] && Admissible(s, run)
    ensures var t := Execute(s, run); var running := NewOperation(UpgradeApply).(status := Running);
            && t.requests == [Request(dir, running, Some(mine), Some(id), Tasking, false)]
            && t.files == map[p := backup, mine := running]
  {
    var op := NewOperation(UpgradeApply);
    var files := map[p := backup];
    s := State([], {}, files);
    var s1 := State([Request(dir, op, None, None, Accepted, false)], {}, files);
    var s2 := State([Request(dir, op, None, Some(id), BackupFound, false)], {}, files);
    var created := Request(dir, op, Some(mine), Some(id), Created, false);
    run := CreatedUpToTask(created, mine, files[mine := op]);
    run := RunCons(s2, Create(0, "0"), run, State([created], {}, files[mine := op]));
    run := RunCons(s1, FindBackup(0, id), run, s2);
    run := RunCons(s, Arrive(dir, UpgradeApply), run, s1);
  }

  /** Any other id may lead elsewhere: an upgrade of one directory runs its task on the backup of the
      directory beside it, with no record of a backup in its own. */
  lemma UpgradeOnSiblingBackup(parent: Path, own: string, sibling: string, state: string, name: string)
    returns (s: State, run: seq<Step>)
    requires IsName(sibling) && IsName(state) && SlashFree(name) && own != sibling
    ensures Start(s) && Admissible(s, run)
    ensures var t := Execute(s, run); var dir := parent + [own, state];
            && |t.requests| == 1 && t.requests[0].dir == dir
            && t.requests[0].operation.kind.UpgradeApply? && t.requests[0].phase.Tasking?
            && t.requests[0].backup == Some(SiblingId(sibling, state, name))
            && (forall p :: IsGoodBackup(t.files, p) ==>
                  InFolder(parent + [sibling, state], p) && !InFolder(dir, p))
  {
    var dir, other := parent + [own, state], parent + [sibling, state];
    var id, p, mine := SiblingId(sibling, state, name), RecordPath(other, name), RecordPath(dir, "0");
    SiblingIdLeavesFolder(parent, own, sibling, state, name);
    PlainIdStaysInFolder(other, name);
    PlainIdStaysInFolder(dir, "0");
    assert dir[|parent|] == own && other[|parent|] == sibling;
    FoldersAreDisjoint(other, dir, p);
    var done := NewOperation(Backup).(status := Succeeded, completed := true);
    s, run := UpgradeUpToTask(dir, id, p, done, mine);
  }

  /** What stays of a refused request: it is reported or not, and nothing else about it changes. */
  predicate StaysRefused(s: State, j: nat, refused: Request) {
    && j < |s.requests|
    && refused.operation.status.Failed?
    && refused.file.Some?
    && ((s.requests[j] == refused && refused.phase.Refused?)
        || (s.requests[j] == refused.(phase := Done)
            && refused.file.value in s.files && s.files[refused.file.value] == refused.operation))
  }

  lemma StepKeepsRefusal(s: State, j: nat, refused: Request, step: Step)
    requires Safe(s) && StaysRefused(s, j, refused) && Enabled(s, step)
    ensures StaysRefused(Apply(s, step), j, refused)
  {
    var t, p := Apply(s, step), refused.file.value;
    assert Owns(s, j, p);
    if Index(step) != Some(j) && p in s.files && t.files[p] != s.files[p] {
      StepWritesOwnFile(s, step, p);
      StepKeepsSafe(s, step);
      assert Owns(t, Index(step).value, p) && Owns(t, j, p);
    }
  }

  lemma {:induction false} RefusalIsFinal(s: State, j: nat, refused: Request, run: seq<Step>)
    requires Safe(s) && StaysRefused(s, j, refused) && Admissible(s, run)
    ensures StaysRefused(Execute(s, run), j, refused)
    decreases |run|
  {
    if run != [] {
      StepKeepsSafe(s, run[0]);
      StepKeepsRefusal(s, j, refused, run[0]);
      RefusalIsFinal(Apply(s, run[0]), j, refused, run[1..]);
    }
  }

  /** A request that meets a lock held by another is refused, and over every run from there it never runs
      its task; once it has reported, its persisted record says FAILED for good. Its refusal leaves the
      other's lock alone. */
  lemma SecondRequestIsRefused(s: State, i: nat, j: nat, run: seq<Step>)
    requires Safe(s) && j < |s.requests| && s.requests[j].phase.Created? && HoldsAt(s, i, s.requests[j].dir)
    requires Admissible(Apply(s, EnterRun(j)), run)
    ensures Apply(s, EnterRun(j)).locks == s.locks
    ensures var t := Execute(Apply(s, EnterRun(j)), run);
            && j < |t.requests|
            && (t.requests[j].phase.Refused? || t.requests[j].phase.Done?)
            && t.requests[j].operation.error == Some(ALREADY_RUNNING) && !t.requests[j].taskCompleted
            && t.requests[j].file.Some?
            && (t.requests[j].phase.Done? ==>
                  var p := t.requests[j].file.value; p in t.files && t.files[p].status.Failed?)
  {
    var t := Apply(s, EnterRun(j));
    assert Coherent(s.requests[j]);
    StepKeepsSafe(s, EnterRun(j));
    RefusalIsFinal(t, j, t.requests[j], run);
  }

  /** Once the RUNNING record of an operation could not be written, its directory is closed: in every run
      from there the lock is held and no task runs in it. */
  lemma StuckLockClosesDirectory(s: State, i: nat, run: seq<Step>)
    requires Safe(s) && i < |s.requests| && s.requests[i].phase.Stuck? && Admissible(s, run)
    ensures var t := Execute(s, run);
            && s.requests[i].dir in t.locks
            && forall r :: r in t.requests && r.dir == s.requests[i].dir ==> !r.phase.Tasking?
  {
    RunKeepsSafe(s, run);
    StuckStays(s, i, run);
    var t := Execute(s, run);
    assert HoldsAt(t, i, s.requests[i].dir);
    forall r | r in t.requests && r.dir == s.requests[i].dir ensures !r.phase.Tasking? {
      var k :| 0 <= k < |t.requests| && t.requests[k] == r;
      assert HoldsAt(t, k, r.dir) ==> k == i;
    }
  }

  lemma {:induction false} StuckStays(s: State, i: nat, run: seq<Step>)
    requires i < |s.requests| && s.requests[i].phase.Stuck? && Admissible(s, run)
    ensures i < |Execute(s, run).requests| && Execute(s, run).requests[i] == s.requests[i]
    decreases |run|
  {
    if run != [] {
      StuckStays(Apply(s, run[0]), i, run[1..]);
    }
  }

  /** Such a run exists: the first operation of a fresh process takes the lock, the write of its RUNNING
      record fails, and the lock stays with nothing left to free it. */
  lemma LockCanStick(dir: Path) returns (s: State, run: seq<Step>)
    ensures Start(s) && Admissible(s, run) && dir in Execute(s, run).locks
    ensures forall r :: r in Execute(s, run).requests ==> r.phase.Stuck?
  {
    var op := NewOperation(Backup);
    var running := op.(status := Running);
    var p := RecordPath(dir, "0");
    s := State([], {}, map[]);
    var s1 := State([Request(dir, op, None, None, Accepted, false)], {}, map[]);
    var s2 := State([Request(dir, op, Some(p), None, Created, false)], {}, map[p := op]);
    var s3 := State([Request(dir, running, Some(p), None, Locked, false)], {dir}, map[p := op]);
    var s4 := State([Request(dir, running, Some(p), None, Stuck, false)], {dir}, map[p := op]);
    assert Apply(s2, EnterRun(0)) == s3 by { assert {} + {dir} == {dir}; }
    run := RunCons(s3, FailRunningWrite(0, false), [], s4);
    run := RunCons(s2, EnterRun(0), run, s3);
    run := RunCons(s1, Create(0, "0"), run, s2);
    run := RunCons(s, Arrive(dir, Backup), run, s1);
  }

  lemma RunCons(s: State, step: Step, rest: seq<Step>, next: State) returns (run: seq<Step>)
    requires Enabled(s, step) && Apply(s, step) == next && Admissible(next, rest)
    ensures run == [step] + rest && Admissible(s, run) && Execute(s, run) == Execute(next, rest)
  {
    run := [step] + rest;
    assert run[1..] == rest;
  }

  /** Every persisted record of this process that says FAILED names its reason, last in its log. */
  lemma FailuresAreExplained(s: State, run: seq<Step>, i: nat, p: Path)
    requires Start(s) && Admissible(s, run) && Owns(Execute(s, run), i, p)
    ensures p in Execute(s, run).files && Explained(Execute(s, run).files[p])
  {
    RunKeepsSafe(s, run);
    assert Coherent(Execute(s, run).requests[i]);
  }
}
