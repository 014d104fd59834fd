/**
 The `import_jobs` table: the row, every UPDATE the worker and the user
 endpoints issue against it, and the worker's own methods run without
 interference. Module ImportQueue interleaves the same writes.
 */
module ImportJobs {
  import opened Options

  type JobId = nat
  type WorkerId = nat

  const HEARTBEAT_INTERVAL := 10
  const JOB_TIMEOUT := 300
  const STALE_AFTER := 600
  const MAX_RETRIES := 3

  datatype Status = Queued | Processing | Completed | Failed | Cancelled | Deleted

  datatype Job = Job(
    status: Status,
    worker: Option<WorkerId>,
    heartbeatAt: Option<int>,
    retryCount: int,
    createdAt: int,
    stored: bool,
    rowsInserted: nat,
    error: Option<string>,
    completedAt: Option<int>)

  /** What the parse-and-insert service reported for one attempt. */
  datatype Outcome = Imported(rows: nat) | ImportFailed(message: string)

  datatype UserOp = Cancel | Retry | Undo

  /** One UPDATE statement's SET list; Patched is the row it leaves behind. */
  datatype RowWrite =
    | ClaimBy(claimer: WorkerId, at: int)
    | BeatAt(at: int)
    | CompleteAt(success: bool, rows: nat, message: Option<string>, at: int)
    | Requeue(snapshot: int, reason: string)
    | Reschedule
    | CancelAt(at: int)
    | UserRequeue
    | MarkDeleted

  function Patched(j: Job, w: RowWrite): Job {
    match w
    case ClaimBy(claimer, at) =>
      j.(status := Processing, worker := Some(claimer), heartbeatAt := Some(at))
    case BeatAt(at) =>
      j.(heartbeatAt := Some(at))
    case CompleteAt(success, rows, message, at) =>
      j.(status := if success then Completed else Failed, rowsInserted := rows,
         error := message, completedAt := Some(at), worker := None)
    case Requeue(snapshot, reason) =>
      j.(status := Queued, retryCount := snapshot + 1, error := Some(reason),
         worker := None, heartbeatAt := None)
    case Reschedule =>
      j.(status := Queued, worker := None, retryCount := j.retryCount + 1,
         error := Some("Worker timeout - rescheduled"), heartbeatAt := None)
    case CancelAt(at) =>
      j.(status := Cancelled, error := Some("Cancelled by user"), worker := None,
         completedAt := Some(at))
    case UserRequeue =>
      j.(status := Queued, error := None, worker := None, heartbeatAt := None,
         completedAt := None, rowsInserted := 0)
    case MarkDeleted =>
      j.(status := Deleted)
  }

  /** `UPDATE ... WHERE id = id`: no row, no effect. */
  function Update(jobs: map<JobId, Job>, id: JobId, w: RowWrite): map<JobId, Job> {
    if id in jobs then jobs[id := Patched(jobs[id], w)] else jobs
  }

  /** The write that ends an attempt which claimed the row with retry count `snapshot`. */
  function OutcomeWrite(snapshot: int, outcome: Outcome, now: int): RowWrite {
    match outcome
    case Imported(rows) => CompleteAt(true, rows, None, now)
    case ImportFailed(message) =>
      if snapshot >= MAX_RETRIES
      then CompleteAt(false, 0, Some("Max retries exceeded: " + message), now)
      else Requeue(snapshot, message)
  }

  /** A failure the worker gives up on: it is written as failed and the user is notified. */
  predicate DeadLetter(snapshot: int, outcome: Outcome) {
    outcome.ImportFailed? && snapshot >= MAX_RETRIES
  }

  predicate IsStale(j: Job, now: int) {
    && j.status == Processing
    && j.heartbeatAt.Some?
    && j.heartbeatAt.value < now - STALE_AFTER
    && j.retryCount < MAX_RETRIES
  }

  function SweptRow(j: Job, now: int): Job {
    if IsStale(j, now) then Patched(j, Reschedule) else j
  }

  function Swept(jobs: map<JobId, Job>, now: int): map<JobId, Job> {
    map id | id in jobs :: SweptRow(jobs[id], now)
  }

  /** The oldest queued row that no other transaction has locked. */
  predicate ClaimTarget(jobs: map<JobId, Job>, locked: set<JobId>, id: JobId) {
    && id in jobs && jobs[id].status == Queued && id !in locked
    && forall other | other in jobs && jobs[other].status == Queued && other !in locked ::
         jobs[id].createdAt <= jobs[other].createdAt
  }

  /** The status check each user endpoint makes before it writes. */
  predicate CheckPasses(op: UserOp, j: Job) {
    match op
    case Cancel => j.status == Queued || j.status == Processing
    case Retry => (j.status == Failed || j.status == Cancelled) && j.stored
    case Undo => j.status != Deleted
  }

  function UserWrite(op: UserOp, now: int): RowWrite {
    match op
    case Cancel => CancelAt(now)
    case Retry => UserRequeue
    case Undo => MarkDeleted
  }

  function NewJob(now: int, stored: bool): Job {
    Job(Queued, None, None, 0, now, stored, 0, None, None)
  }

  /** A non-empty set of candidate rows has an oldest member. */
  lemma {:induction false} OldestExists(jobs: map<JobId, Job>, candidates: set<JobId>)
    requires candidates != {} && candidates <= jobs.Keys
    ensures exists id :: id in candidates &&
                         forall other | other in candidates :: jobs[id].createdAt <= jobs[other].createdAt
    decreases candidates
  {
    var first :| first in candidates;
    var rest := candidates - {first};
    if rest != {} {
      OldestExists(jobs, rest);
      var best :| best in rest && forall other | other in rest :: jobs[best].createdAt <= jobs[other].createdAt;
      var id := if jobs[first].createdAt <= jobs[best].createdAt then first else best;
      assert forall other | other in candidates :: other == first || other in rest;
      assert id in candidates && forall other | other in candidates :: jobs[id].createdAt <= jobs[other].createdAt;
    } else {
      assert candidates == {first};
    }
  }

  lemma ClaimTargetExists(jobs: map<JobId, Job>, locked: set<JobId>)
    requires exists id :: id in jobs && jobs[id].status == Queued && id !in locked
    ensures exists id :: id in jobs && ClaimTarget(jobs, locked, id)
  {
    var candidates := set id | id in jobs && jobs[id].status == Queued && id !in locked;
    var some :| some in jobs && jobs[some].status == Queued && some !in locked;
    assert some in candidates;
    OldestExists(jobs, candidates);
    var id :| id in candidates && forall other | other in candidates :: jobs[id].createdAt <= jobs[other].createdAt;
    assert ClaimTarget(jobs, locked, id);
  }

  /**
   How many heartbeats land between `start` and `until`: one every ten seconds, thirty at most, and
   no more than the `good` whose writes work before one raises.
   */
  function Beats(start: int, until: int, good: nat): (n: nat)
    requires start <= until
    ensures n <= good && n <= JOB_TIMEOUT / HEARTBEAT_INTERVAL && start + HEARTBEAT_INTERVAL * n <= until
    ensures n == good || n == JOB_TIMEOUT / HEARTBEAT_INTERVAL || until < start + HEARTBEAT_INTERVAL * (n + 1)
  {
    var elapsed := (until - start) / HEARTBEAT_INTERVAL;
    var due := if elapsed < JOB_TIMEOUT / HEARTBEAT_INTERVAL then elapsed else JOB_TIMEOUT / HEARTBEAT_INTERVAL;
    if due < good then due else good
  }

  function AfterBeats(jobs: map<JobId, Job>, id: JobId, start: int, until: int, good: nat): map<JobId, Job>
    requires start <= until
  {
    var n := Beats(start, until, good);
    if n == 0 then jobs else Update(jobs, id, BeatAt(start + HEARTBEAT_INTERVAL * n))
  }

  function Attempted(jobs: map<JobId, Job>, claim: Claim, outcome: Outcome, start: int, finish: int, good: nat)
    : map<JobId, Job>
    requires start <= finish
  {
    Update(AfterBeats(jobs, claim.id, start, finish, good), claim.id, OutcomeWrite(claim.retryCount, outcome, finish))
  }

  /** Writing row `id` touches no other row and makes none. */
  predicate OthersKept(before: map<JobId, Job>, after: map<JobId, Job>, id: JobId) {
    after.Keys == before.Keys && forall other | other in after && other != id :: after[other] == before[other]
  }

  /** What no write changes: the upload itself. */
  predicate SameJob(j: Job, j': Job) {
    j'.createdAt == j.createdAt && j'.stored == j.stored
  }

  /** One claimed row, as the claim query returns it. */
  datatype Claim = Claim(id: JobId, retryCount: int)

  /** The table together with the worker's methods, each run without interference. */
  class ImportWorker {
    const workerId: WorkerId
    var jobs: map<JobId, Job>

    constructor (workerId: WorkerId, jobs: map<JobId, Job>)
      ensures this.workerId == workerId && this.jobs == jobs
    {
      this.workerId := workerId;
      this.jobs := jobs;
    }

    method ClaimJob(locked: set<JobId>, now: int) returns (claim: Option<Claim>)
      modifies this
      ensures claim.None? <==>
              forall id | id in old(jobs) && old(jobs)[id].status == Queued :: id in locked
      ensures claim.None? ==> jobs == old(jobs)
      ensures claim.Some? ==>
                && ClaimTarget(old(jobs), locked, claim.value.id)
                && jobs == Update(old(jobs), claim.value.id, ClaimBy(workerId, now))
      ensures claim.Some? ==>
                var id, j := claim.value.id, old(jobs)[claim.value.id];
                && j.status == Queued && id !in locked
                && (forall other | other in old(jobs) && old(jobs)[other].status == Queued && other !in locked ::
                      j.createdAt <= old(jobs)[other].createdAt)
                && claim.value.retryCount == j.retryCount
                && jobs == old(jobs)[id := j.(status := Processing, worker := Some(workerId), heartbeatAt := Some(now))]
    {
      if exists id :: id in jobs && jobs[id].status == Queued && id !in locked {
        ClaimTargetExists(jobs, locked);
        var id: JobId :| id in jobs && ClaimTarget(jobs, locked, id);
        claim := Some(Claim(id, jobs[id].retryCount));
        jobs := Update(jobs, id, ClaimBy(workerId, now));
      } else {
        claim := None;
      }
    }

    method UpdateHeartbeat(id: JobId, now: int)
      modifies this
      ensures jobs == Update(old(jobs), id, BeatAt(now))
      ensures OthersKept(old(jobs), jobs, id)
      ensures id in jobs ==> jobs[id] == old(jobs)[id].(heartbeatAt := Some(now))
      ensures id in jobs ==> forall later ::
                IsStale(jobs[id], later) <==>
                  jobs[id].status == Processing && jobs[id].retryCount < MAX_RETRIES && now + STALE_AFTER < later
    {
      jobs := Update(jobs, id, BeatAt(now));
    }

    method CompleteJob(id: JobId, success: bool, rows: nat, message: Option<string>, now: int)
      modifies this
      ensures jobs == Update(old(jobs), id, CompleteAt(success, rows, message, now))
      ensures OthersKept(old(jobs), jobs, id)
      ensures id in jobs ==>
                && jobs[id].status == (if success then Completed else Failed) && jobs[id].worker == None
                && jobs[id].rowsInserted == rows && jobs[id].error == message && jobs[id].completedAt == Some(now)
                && SameJob(old(jobs)[id], jobs[id]) && jobs[id].retryCount == old(jobs)[id].retryCount
      ensures id in jobs ==> forall later :: !IsStale(jobs[id], later)
      ensures forall locked :: !ClaimTarget(jobs, locked, id)
    {
      jobs := Update(jobs, id, CompleteAt(success, rows, message, now));
    }

    method RetryJob(id: JobId, retryCount: int, message: string, now: int)
      modifies this
      ensures jobs == Update(old(jobs), id, OutcomeWrite(retryCount, ImportFailed(message), now))
      ensures OthersKept(old(jobs), jobs, id)
      ensures id in jobs ==>
                && jobs[id].worker == None && SameJob(old(jobs)[id], jobs[id])
                && if retryCount < 3
                   then jobs[id].status == Queued && jobs[id].retryCount == retryCount + 1
                        && jobs[id].error == Some(message) && jobs[id].heartbeatAt == None
                   else jobs[id].status == Failed && jobs[id].retryCount == old(jobs)[id].retryCount
                        && jobs[id].error == Some("Max retries exceeded: " + message)
                        && jobs[id].completedAt == Some(now) && jobs[id].rowsInserted == 0
    {
      if retryCount >= MAX_RETRIES {
        CompleteJob(id, false, 0, Some("Max retries exceeded: " + message), now);
        return;
      }
      jobs := Update(jobs, id, Requeue(retryCount, message));
    }

    method CleanupStaleJobs(now: int) returns (rescheduled: set<JobId>)
      modifies this
      ensures jobs == Swept(old(jobs), now)
      ensures forall id :: id in rescheduled <==>
                && id in old(jobs) && old(jobs)[id].status == Processing && old(jobs)[id].retryCount < 3
                && old(jobs)[id].heartbeatAt.Some? && old(jobs)[id].heartbeatAt.value + 600 < now
      ensures jobs.Keys == old(jobs).Keys && forall id | id in jobs :: !IsStale(jobs[id], now)
      ensures forall id | id in jobs && id !in rescheduled :: jobs[id] == old(jobs)[id]
      ensures forall id | id in rescheduled ::
                && jobs[id].status == Queued && jobs[id].worker == None && jobs[id].heartbeatAt == None
                && jobs[id].retryCount == old(jobs)[id].retryCount + 1 <= MAX_RETRIES
                && jobs[id].error == Some("Worker timeout - rescheduled")
                && SameJob(old(jobs)[id], jobs[id])
    {
      rescheduled := set id | id in jobs && IsStale(jobs[id], now);
      jobs := Swept(jobs, now);
    }

    /** The heartbeat task from `start` until it is cancelled at `until` or a write raises after `good` of them. */
    method HeartbeatLoop(id: JobId, start: int, until: int, good: nat) returns (ghost k: nat)
      requires start <= until
      modifies this
      ensures jobs == AfterBeats(old(jobs), id, start, until, good)
      ensures k <= good && k <= 30 && start + 10 * k <= until
      ensures k == good || k == 30 || until < start + 10 * (k + 1)
      ensures OthersKept(old(jobs), jobs, id)
      ensures id in jobs ==> jobs[id] == if k == 0 then old(jobs)[id]
                                         else old(jobs)[id].(heartbeatAt := Some(start + 10 * k))
    {
      var t := start;
      k := 0;
      while t - start < JOB_TIMEOUT && t + HEARTBEAT_INTERVAL <= until
        invariant 0 <= k <= Beats(start, until, good)
        invariant t == start + HEARTBEAT_INTERVAL * k
        invariant jobs == if k == 0 then old(jobs) else Update(old(jobs), id, BeatAt(t))
      {
        if t - start >= HEARTBEAT_INTERVAL * good {
          break;
        }
        t := t + HEARTBEAT_INTERVAL;
        k := k + 1;
        UpdateHeartbeat(id, t);
      }
      assert k == Beats(start, until, good);
      assert jobs == AfterBeats(old(jobs), id, start, until, good);
    }

    /** The whole attempt after a claim, when nobody else writes the row meanwhile. */
    method ProcessJob(claim: Claim, outcome: Outcome, start: int, finish: int, good: nat) returns (ok: bool)
      requires start <= finish
      modifies this
      ensures claim.id in old(jobs) && old(jobs)[claim.id].status == Cancelled ==>
                !ok && jobs == old(jobs)
      ensures !(claim.id in old(jobs) && old(jobs)[claim.id].status == Cancelled) ==>
                && ok == outcome.Imported?
                && jobs == Attempted(old(jobs), claim, outcome, start, finish, good)
                && (claim.id in jobs ==>
                      && jobs[claim.id].worker == None && SameJob(old(jobs)[claim.id], jobs[claim.id])
                      && match outcome {
                           case Imported(rows) =>
                             jobs[claim.id].status == Completed && jobs[claim.id].rowsInserted == rows
                           case ImportFailed(_) =>
                             if claim.retryCount < 3
                             then jobs[claim.id].status == Queued && jobs[claim.id].retryCount == claim.retryCount + 1
                             else jobs[claim.id].status == Failed
                         })
    {
      if claim.id in jobs && jobs[claim.id].status == Cancelled {
        return false;
      }
      var _ := HeartbeatLoop(claim.id, start, finish, good);
      match outcome
      case Imported(rows) =>
        CompleteJob(claim.id, true, rows, None, finish);
        ok := true;
      case ImportFailed(message) =>
        RetryJob(claim.id, claim.retryCount, message, finish);
        ok := false;
    }

    /** Cleanup, claim, process: one pass of the worker's loop. */
    method RunOnce(outcome: Outcome, start: int, finish: int, good: nat) returns (claim: Option<Claim>)
      requires start <= finish
      modifies this
      ensures claim.None? <==> forall id | id in old(jobs) :: SweptRow(old(jobs)[id], start).status != Queued
      ensures claim.None? ==> jobs == Swept(old(jobs), start)
      ensures claim.Some? ==>
                && ClaimTarget(Swept(old(jobs), start), {}, claim.value.id)
                && claim.value.retryCount == SweptRow(old(jobs)[claim.value.id], start).retryCount
                && jobs == Attempted(Update(Swept(old(jobs), start), claim.value.id, ClaimBy(workerId, start)),
                                     claim.value, outcome, start, finish, good)
    {
      var _ := CleanupStaleJobs(start);
      ghost var swept := jobs;
      assert forall id | id in swept :: swept[id] == SweptRow(old(jobs)[id], start);
      claim := ClaimJob({}, start);
      if claim.Some? {
        var _ := ProcessJob(claim.value, outcome, start, finish, good);
      }
    }
  }

  datatype Answer = Done | NotFound | Refused

  /** The table with the users' endpoints, each run without interference. */
  class ImportEndpoints {
    var jobs: map<JobId, Job>

    constructor (jobs: map<JobId, Job>)
      ensures this.jobs == jobs
    {
      this.jobs := jobs;
    }

    /** The read, the status check and the write that the three endpoints share. */
    method Request(op: UserOp, id: JobId, now: int) returns (answer: Answer)
      modifies this
      ensures answer == if id !in old(jobs) then NotFound
                        else if CheckPasses(op, old(jobs)[id]) then Done else Refused
      ensures jobs == if answer.Done? then Update(old(jobs), id, UserWrite(op, now)) else old(jobs)
    {
      if id !in jobs {
        return NotFound;
      }
      if !CheckPasses(op, jobs[id]) {
        return Refused;
      }
      jobs := Update(jobs, id, UserWrite(op, now));
      answer := Done;
    }

    method CancelImport(id: JobId, now: int) returns (answer: Answer)
      modifies this
      ensures answer.Done? <==> id in old(jobs) && old(jobs)[id].status in {Queued, Processing}
      ensures answer.NotFound? <==> id !in old(jobs)
      ensures jobs == if answer.Done?
                      then old(jobs)[id := old(jobs)[id].(status := Cancelled, error := Some("Cancelled by user"),
                                                          worker := None, completedAt := Some(now))]
                      else old(jobs)
    {
      answer := Request(Cancel, id, now);
    }

    /** A retried row is as it was submitted, save for the retries it has used. */
    method RetryImport(id: JobId, now: int) returns (answer: Answer)
      modifies this
      ensures answer.Done? <==> id in old(jobs) && old(jobs)[id].status in {Failed, Cancelled} && old(jobs)[id].stored
      ensures answer.NotFound? <==> id !in old(jobs)
      ensures answer.Done? ==>
                var j := old(jobs)[id];
                && jobs == old(jobs)[id := NewJob(j.createdAt, j.stored).(retryCount := j.retryCount)]
                && jobs[id] == Job(Queued, None, None, j.retryCount, j.createdAt, j.stored, 0, None, None)
      ensures !answer.Done? ==> jobs == old(jobs)
    {
      answer := Request(Retry, id, now);
    }

    method UndoImport(id: JobId, now: int) returns (answer: Answer)
      modifies this
      ensures answer.Done? <==> id in old(jobs) && old(jobs)[id].status != Deleted
      ensures answer.NotFound? <==> id !in old(jobs)
      ensures jobs == if answer.Done? then old(jobs)[id := old(jobs)[id].(status := Deleted)] else old(jobs)
    {
      answer := Request(Undo, id, now);
    }
  }
}
