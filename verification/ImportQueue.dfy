/**
 The import queue as a protocol: any number of workers and users interleave the
 writes of module ImportJobs, one statement at a time, under one clock.
 */
module ImportQueue {
  import opened Options
  import opened ImportJobs

  /** Claimed: before the first status read. Running: heartbeat task alive. Notifying: dead letter written. */
  datatype Phase = Claimed | Running | Notifying

  datatype Attempt = Attempt(
    job: JobId,
    snapshot: int,
    phase: Phase,
    claimedAt: int,
    startedAt: int,
    nextBeat: Option<int>)

  /** `pending` holds user requests that passed their status check and have yet to write. */
  datatype State = State(
    now: int,
    jobs: map<JobId, Job>,
    attempts: map<WorkerId, Attempt>,
    pending: multiset<(UserOp, JobId)>)

  datatype Event =
    | Submit(id: JobId, stored: bool)
    | Take(w: WorkerId, id: JobId, locked: set<JobId>)
    | Begin(w: WorkerId)
    | Beat(w: WorkerId)
    | BeatFails(w: WorkerId)
    | Finish(w: WorkerId, outcome: Outcome)
    | EndNotice(w: WorkerId)
    | Crash(w: WorkerId)
    | Cleanup
    | Check(op: UserOp, id: JobId)
    | Write(op: UserOp, id: JobId)
    | Advance(to: int)

  const INIT := State(0, map[], map[], multiset{})

  predicate Enabled(s: State, e: Event) {
    match e
    case Submit(id, _) => id !in s.jobs
    case Take(w, id, locked) => w !in s.attempts && ClaimTarget(s.jobs, locked, id)
    case Begin(w) => w in s.attempts && s.attempts[w].phase == Claimed
    case Beat(w) =>
      && w in s.attempts && s.attempts[w].phase != Claimed
      && s.attempts[w].nextBeat.Some? && s.attempts[w].nextBeat.value <= s.now
    case BeatFails(w) =>
      && w in s.attempts && s.attempts[w].phase != Claimed
      && s.attempts[w].nextBeat.Some? && s.attempts[w].nextBeat.value <= s.now
    case Finish(w, _) => w in s.attempts && s.attempts[w].phase == Running
    case EndNotice(w) => w in s.attempts && s.attempts[w].phase == Notifying
    case Crash(w) => w in s.attempts
    case Cleanup => true
    case Check(op, id) => id in s.jobs && CheckPasses(op, s.jobs[id])
    case Write(op, id) => (op, id) in s.pending
    case Advance(to) => s.now <= to
  }

  function Without(attempts: map<WorkerId, Attempt>, w: WorkerId): map<WorkerId, Attempt> {
    attempts - {w}
  }

  /** The heartbeat task after a beat at `now`: another sleep, or the end of its loop. */
  function AfterBeat(a: Attempt, now: int): Attempt {
    a.(nextBeat := if now - a.startedAt < JOB_TIMEOUT then Some(now + HEARTBEAT_INTERVAL) else None)
  }

  function Apply(s: State, e: Event): State
    requires Enabled(s, e)
  {
    match e
    case Submit(id, stored) =>
      s.(jobs := s.jobs[id := NewJob(s.now, stored)])
    case Take(w, id, _) =>
      s.(jobs := Update(s.jobs, id, ClaimBy(w, s.now)),
         attempts := s.attempts[w := Attempt(id, s.jobs[id].retryCount, Claimed, s.now, s.now, None)])
    case Begin(w) =>
      var a := s.attempts[w];
      if a.job in s.jobs && s.jobs[a.job].status == Cancelled
      then s.(attempts := Without(s.attempts, w))
      else s.(attempts := s.attempts[w := a.(phase := Running, startedAt := s.now,
                                             nextBeat := Some(s.now + HEARTBEAT_INTERVAL))])
    case Beat(w) =>
      var a := s.attempts[w];
      s.(jobs := Update(s.jobs, a.job, BeatAt(s.now)),
         attempts := s.attempts[w := AfterBeat(a, s.now)])
    case BeatFails(w) => s.(attempts := s.attempts[w := s.attempts[w].(nextBeat := None)])
    case Finish(w, outcome) =>
      var a := s.attempts[w];
      s.(jobs := Update(s.jobs, a.job, OutcomeWrite(a.snapshot, outcome, s.now)),
         attempts := if DeadLetter(a.snapshot, outcome)
                     then s.attempts[w := a.(phase := Notifying)]
                     else Without(s.attempts, w))
    case EndNotice(w) => s.(attempts := Without(s.attempts, w))
    case Crash(w) => s.(attempts := Without(s.attempts, w))
    case Cleanup => s.(jobs := Swept(s.jobs, s.now))
    case Check(op, id) => s.(pending := s.pending + multiset{(op, id)})
    case Write(op, id) =>
      s.(jobs := Update(s.jobs, id, UserWrite(op, s.now)),
         pending := s.pending - multiset{(op, id)})
    case Advance(to) => s.(now := to)
  }

  /** A run: every event is enabled where it happens. */
  ghost predicate Legal(es: seq<Event>)
    decreases |es|, 0
  {
    es == [] || (Legal(es[..|es|-1]) && Enabled(Exec(es[..|es|-1]), es[|es|-1]))
  }

  ghost function Exec(es: seq<Event>): State
    requires Legal(es)
    decreases |es|, 1
  {
    if es == [] then INIT else Apply(Exec(es[..|es|-1]), es[|es|-1])
  }

  lemma Extend(es: seq<Event>, e: Event)
    requires Legal(es) && Enabled(Exec(es), e)
    ensures Legal(es + [e]) && Exec(es + [e]) == Apply(Exec(es), e)
  {
    assert (es + [e])[..|es + [e]| - 1] == es;
  }

  // ---- What every run keeps, whatever users and stale workers do ----

  ghost predicate JobInv(j: Job) {
    && 0 <= j.retryCount <= MAX_RETRIES
    && (j.worker.Some? ==> j.status == Processing || j.status == Deleted)
    && (j.status == Processing ==> j.heartbeatAt.Some?)
  }

  ghost predicate CountInv(s: State) {
    && (forall id | id in s.jobs :: JobInv(s.jobs[id]))
    && (forall w | w in s.attempts ::
          s.attempts[w].job in s.jobs && 0 <= s.attempts[w].snapshot <= MAX_RETRIES)
  }

  /** The SET lists alone keep a row's bounds, given a claim snapshot within them. */
  lemma PatchKeeps(j: Job, w: RowWrite)
    requires JobInv(j)
    requires w.BeatAt? || w.ClaimBy? || w.CompleteAt? || w.CancelAt? || w.UserRequeue? || w.MarkDeleted?
             || (w.Requeue? && 0 <= w.snapshot < MAX_RETRIES)
             || (w.Reschedule? && j.retryCount < MAX_RETRIES)
    ensures JobInv(Patched(j, w))
  {
  }

  lemma JobInvStep(s: State, e: Event, id: JobId)
    requires CountInv(s) && Enabled(s, e) && id in Apply(s, e).jobs
    ensures JobInv(Apply(s, e).jobs[id])
  {
    if id in s.jobs {
      var j := s.jobs[id];
      match e
      case Take(w, _, _) => PatchKeeps(j, ClaimBy(w, s.now));
      case Beat(_) => PatchKeeps(j, BeatAt(s.now));
      case Finish(w, outcome) => PatchKeeps(j, OutcomeWrite(s.attempts[w].snapshot, outcome, s.now));
      case Cleanup => if IsStale(j, s.now) { PatchKeeps(j, Reschedule); }
      case Write(op, _) => PatchKeeps(j, UserWrite(op, s.now));
      case _ => assert Apply(s, e).jobs[id] == j;
    }
  }

  /** An attempt stays on to notify the user exactly when its outcome leaves the row failed. */
  lemma NotifiesFailures(s: State, w: WorkerId, outcome: Outcome)
    requires Enabled(s, Finish(w, outcome)) && s.attempts[w].job in s.jobs
    ensures var s' := Apply(s, Finish(w, outcome));
            w in s'.attempts <==> s'.jobs[s.attempts[w].job].status == Failed
  {
  }

  lemma CountStep(s: State, e: Event)
    requires CountInv(s) && Enabled(s, e)
    ensures CountInv(Apply(s, e))
  {
    var s' := Apply(s, e);
    forall id | id in s'.jobs ensures JobInv(s'.jobs[id]) {
      JobInvStep(s, e, id);
    }
  }

  lemma {:induction false} CountsBounded(es: seq<Event>)
    requires Legal(es)
    ensures CountInv(Exec(es))
    decreases |es|
  {
    if es != [] {
      CountsBounded(es[..|es|-1]);
      CountStep(Exec(es[..|es|-1]), es[|es|-1]);
    }
  }

  // ---- The lease ----

  /**
   How late things may happen: first status read, each heartbeat, and the whole attempt; and
   whether each heartbeat's write works. One that fails ends the heartbeat task.
   */
  datatype Timing = Timing(startDelay: nat, beatLag: nat, jobLimit: nat, beatsWork: bool)

  predicate Safe(t: Timing) {
    || t.jobLimit <= STALE_AFTER
    || (t.beatsWork && t.jobLimit <= STALE_AFTER + JOB_TIMEOUT
        && t.startDelay + HEARTBEAT_INTERVAL + t.beatLag <= STALE_AFTER)
  }

  predicate Live(a: Attempt) {
    a.phase != Notifying
  }

  /** Time may pass to `to` only while every live attempt still meets its deadlines. */
  predicate OnTime(t: Timing, a: Attempt, to: int) {
    Live(a) ==>
      && to <= a.claimedAt + t.jobLimit
      && (a.phase == Claimed ==> to <= a.claimedAt + t.startDelay)
      && (a.phase == Running && a.nextBeat.Some? ==> to <= a.nextBeat.value + t.beatLag)
  }

  /** Workers are on time, and no user's write lands on a row that is being processed. */
  predicate Punctual(t: Timing, s: State, e: Event) {
    match e
    case Advance(to) => forall w | w in s.attempts :: OnTime(t, s.attempts[w], to)
    case Write(_, id) => id in s.jobs && s.jobs[id].status != Processing
    case BeatFails(_) => !t.beatsWork
    case _ => true
  }

  ghost predicate PunctualRun(t: Timing, es: seq<Event>)
    decreases |es|
  {
    && Legal(es)
    && (es == [] || (PunctualRun(t, es[..|es|-1]) && Punctual(t, Exec(es[..|es|-1]), es[|es|-1])))
  }

  lemma ExtendPunctual(t: Timing, es: seq<Event>, e: Event)
    requires PunctualRun(t, es) && Enabled(Exec(es), e) && Punctual(t, Exec(es), e)
    ensures PunctualRun(t, es + [e]) && Exec(es + [e]) == Apply(Exec(es), e)
  {
    assert (es + [e])[..|es + [e]| - 1] == es;
  }

  lemma ThenPunctual(t: Timing, es: seq<Event>, e: Event, s: State, s': State) returns (es': seq<Event>)
    requires PunctualRun(t, es) && Exec(es) == s && Enabled(s, e) && Punctual(t, s, e) && Apply(s, e) == s'
    ensures es' == es + [e] && PunctualRun(t, es') && Exec(es') == s'
  {
    ExtendPunctual(t, es, e);
    es' := es + [e];
  }

  /** Worker `w` owns the row it works on, and cleanup will not take it away. */
  ghost predicate Owns(s: State, w: WorkerId)
    requires w in s.attempts
  {
    var a := s.attempts[w];
    && a.job in s.jobs
    && s.jobs[a.job].status == Processing
    && s.jobs[a.job].worker == Some(w)
    && s.jobs[a.job].retryCount == a.snapshot
    && !IsStale(s.jobs[a.job], s.now)
  }

  ghost predicate LeaseHeld(s: State) {
    forall w | w in s.attempts && Live(s.attempts[w]) :: Owns(s, w)
  }

  /** The inductive form: what the row's heartbeat is worth at each stage of an attempt. */
  ghost predicate AttemptInv(t: Timing, now: int, j: Job, w: WorkerId, a: Attempt) {
    && j.status == Processing
    && j.worker == Some(w)
    && j.retryCount == a.snapshot
    && j.heartbeatAt.Some?
    && a.claimedAt <= j.heartbeatAt.value <= now
    && a.claimedAt <= now <= a.claimedAt + t.jobLimit
    && (a.phase == Claimed ==> now <= a.claimedAt + t.startDelay)
    && (a.phase == Running ==>
          && a.claimedAt <= a.startedAt <= now
          && a.startedAt <= a.claimedAt + t.startDelay
          && (a.nextBeat.Some? ==>
                && now <= a.nextBeat.value + t.beatLag
                && (a.nextBeat.value == a.startedAt + HEARTBEAT_INTERVAL
                    || a.nextBeat.value <= j.heartbeatAt.value + HEARTBEAT_INTERVAL))
          && (a.nextBeat.None? && t.beatsWork ==> a.startedAt + JOB_TIMEOUT <= j.heartbeatAt.value))
  }

  ghost predicate LeaseInv(t: Timing, s: State) {
    forall w | w in s.attempts && Live(s.attempts[w]) ::
      s.attempts[w].job in s.jobs && AttemptInv(t, s.now, s.jobs[s.attempts[w].job], w, s.attempts[w])
  }

  lemma NotStale(t: Timing, now: int, j: Job, w: WorkerId, a: Attempt)
    requires Safe(t) && Live(a) && AttemptInv(t, now, j, w, a)
    ensures !IsStale(j, now)
  {
  }

  lemma LeaseInvHolds(t: Timing, s: State)
    requires Safe(t) && LeaseInv(t, s)
    ensures LeaseHeld(s)
  {
    forall w | w in s.attempts && Live(s.attempts[w]) ensures Owns(s, w) {
      NotStale(t, s.now, s.jobs[s.attempts[w].job], w, s.attempts[w]);
    }
  }

  /** No event but its own finish does more to a live attempt's row than refresh the heartbeat. */
  lemma RowKept(t: Timing, s: State, e: Event, w: WorkerId)
    requires Safe(t) && LeaseInv(t, s) && Enabled(s, e) && Punctual(t, s, e)
    requires w in s.attempts && Live(s.attempts[w]) && !(e.Finish? && e.w == w)
    ensures s.attempts[w].job in Apply(s, e).jobs
    ensures var j, j' := s.jobs[s.attempts[w].job], Apply(s, e).jobs[s.attempts[w].job];
            j' == j || j' == Patched(j, BeatAt(s.now))
  {
    var a := s.attempts[w];
    assert AttemptInv(t, s.now, s.jobs[a.job], w, a);
    match e
    case Submit(id, _) => assert id != a.job;
    case Take(_, id, _) => assert id != a.job;
    case Finish(v, _) =>
      assert AttemptInv(t, s.now, s.jobs[s.attempts[v].job], v, s.attempts[v]);
      assert s.attempts[v].job != a.job;
    case Cleanup => NotStale(t, s.now, s.jobs[a.job], w, a);
    case Write(_, id) => assert id != a.job;
    case _ =>
  }

  /** A live attempt after an event that leaves it alive: unchanged, or moved on by its own Begin or Beat. */
  lemma AttemptKept(t: Timing, s: State, e: Event, w: WorkerId)
    requires Safe(t) && LeaseInv(t, s) && Enabled(s, e) && Punctual(t, s, e)
    requires w in s.attempts && Live(s.attempts[w]) && !(e.Finish? && e.w == w)
    requires w in Apply(s, e).attempts
    ensures AttemptInv(t, Apply(s, e).now, Apply(s, e).jobs[s.attempts[w].job], w, Apply(s, e).attempts[w])
    ensures Apply(s, e).attempts[w].job == s.attempts[w].job
  {
    var a := s.attempts[w];
    var s' := Apply(s, e);
    RowKept(t, s, e, w);
    assert AttemptInv(t, s.now, s.jobs[a.job], w, a);
    if e.Advance? {
      assert OnTime(t, a, e.to);
      assert s'.attempts[w] == a;
    } else if e.Beat? && e.w == w {
      assert s'.jobs[a.job] == Patched(s.jobs[a.job], BeatAt(s.now));
    } else if (e.Begin? || e.BeatFails?) && e.w == w {
      assert s'.jobs == s.jobs;
    } else {
      assert s'.attempts[w] == a;
      assert s'.now == s.now;
    }
  }

  lemma LeaseStep(t: Timing, s: State, e: Event)
    requires Safe(t) && LeaseInv(t, s) && Enabled(s, e) && Punctual(t, s, e)
    ensures LeaseInv(t, Apply(s, e))
  {
    var s' := Apply(s, e);
    forall w | w in s'.attempts && Live(s'.attempts[w])
      ensures s'.attempts[w].job in s'.jobs && AttemptInv(t, s'.now, s'.jobs[s'.attempts[w].job], w, s'.attempts[w])
    {
      if e.Take? && e.w == w {
        assert s'.jobs[e.id] == Patched(s.jobs[e.id], ClaimBy(w, s.now));
      } else {
        assert w in s.attempts;
        RowKept(t, s, e, w);
        AttemptKept(t, s, e, w);
      }
    }
  }

  lemma {:induction false} LeaseInvOfRun(t: Timing, es: seq<Event>)
    requires Safe(t) && PunctualRun(t, es)
    ensures LeaseInv(t, Exec(es))
    decreases |es|
  {
    if es != [] {
      LeaseInvOfRun(t, es[..|es|-1]);
      LeaseStep(t, Exec(es[..|es|-1]), es[|es|-1]);
    }
  }

  // ---- Unsafe timings lose the lease ----

  /** Worker 0 runs job 0, which it took at time 0 and last heartbeat at `beat`. */
  function Runner(now: int, started: int, beat: int, nextBeat: Option<int>): State {
    State(now, map[0 := BeatenJob(beat)], map[0 := Attempt(0, 0, Running, 0, started, nextBeat)], multiset{})
  }

  function BeatenJob(beat: int): Job {
    NewJob(0, true).(status := Processing, worker := Some(0), heartbeatAt := Some(beat))
  }

  lemma TakeFirst(t: Timing) returns (es: seq<Event>)
    ensures PunctualRun(t, es)
    ensures Exec(es) == State(0, map[0 := BeatenJob(0)], map[0 := Attempt(0, 0, Claimed, 0, 0, None)], multiset{})
  {
    var submitted := [Submit(0, true)];
    ExtendPunctual(t, [], Submit(0, true));
    assert [] + submitted == submitted;
    ExtendPunctual(t, submitted, Take(0, 0, {}));
    es := submitted + [Take(0, 0, {})];
  }

  lemma BeginFirst(t: Timing, es: seq<Event>, now: int) returns (es': seq<Event>)
    requires PunctualRun(t, es)
    requires Exec(es) == State(now, map[0 := BeatenJob(0)], map[0 := Attempt(0, 0, Claimed, 0, 0, None)], multiset{})
    ensures PunctualRun(t, es')
    ensures Exec(es') == Runner(now, now, 0, Some(now + HEARTBEAT_INTERVAL))
  {
    ExtendPunctual(t, es, Begin(0));
    es' := es + [Begin(0)];
  }

  lemma Wait(t: Timing, es: seq<Event>, to: int) returns (es': seq<Event>)
    requires PunctualRun(t, es) && Enabled(Exec(es), Advance(to)) && Punctual(t, Exec(es), Advance(to))
    ensures PunctualRun(t, es') && Exec(es') == Exec(es).(now := to)
  {
    ExtendPunctual(t, es, Advance(to));
    es' := es + [Advance(to)];
  }

  function Beaten(k: nat): State {
    Runner(HEARTBEAT_INTERVAL * k, 0, HEARTBEAT_INTERVAL * k,
           if k < 30 then Some(HEARTBEAT_INTERVAL * (k + 1)) else None)
  }

  /** Waiting for the next beat and making it, as states. */
  lemma BeatenNext(t: Timing, k: nat)
    requires k < 30 && HEARTBEAT_INTERVAL * (k + 1) <= t.jobLimit
    ensures var to := Advance(HEARTBEAT_INTERVAL * (k + 1));
            && Enabled(Beaten(k), to) && Punctual(t, Beaten(k), to)
            && var waited := Apply(Beaten(k), to);
               Enabled(waited, Beat(0)) && Punctual(t, waited, Beat(0)) && Apply(waited, Beat(0)) == Beaten(k + 1)
  {
    var waited := Apply(Beaten(k), Advance(HEARTBEAT_INTERVAL * (k + 1)));
    assert waited.attempts[0].startedAt == 0 && waited.now == HEARTBEAT_INTERVAL * (k + 1);
    assert waited.now < JOB_TIMEOUT <==> k + 1 < 30;
  }

  lemma BeatOnce(t: Timing, es: seq<Event>, k: nat) returns (es': seq<Event>)
    requires k < 30 && HEARTBEAT_INTERVAL * (k + 1) <= t.jobLimit
    requires PunctualRun(t, es) && Exec(es) == Beaten(k)
    ensures PunctualRun(t, es') && Exec(es') == Beaten(k + 1)
  {
    var to := Advance(HEARTBEAT_INTERVAL * (k + 1));
    var waited := Apply(Beaten(k), to);
    BeatenNext(t, k);
    es' := ThenPunctual(t, es, to, Beaten(k), waited);
    es' := ThenPunctual(t, es', Beat(0), waited, Beaten(k + 1));
  }

  /** Waiting for the first beat and failing to write it, as states. */
  lemma FailureNext(t: Timing, waited: State)
    requires !t.beatsWork && HEARTBEAT_INTERVAL <= t.jobLimit
    requires waited == Apply(Beaten(0), Advance(HEARTBEAT_INTERVAL))
    ensures Enabled(Beaten(0), Advance(HEARTBEAT_INTERVAL)) && Punctual(t, Beaten(0), Advance(HEARTBEAT_INTERVAL))
    ensures Enabled(waited, BeatFails(0)) && Punctual(t, waited, BeatFails(0))
    ensures Apply(waited, BeatFails(0)) == Runner(HEARTBEAT_INTERVAL, 0, 0, None)
  {
  }

  lemma FailOnce(t: Timing, es: seq<Event>) returns (es': seq<Event>)
    requires !t.beatsWork && HEARTBEAT_INTERVAL <= t.jobLimit
    requires PunctualRun(t, es) && Exec(es) == Beaten(0)
    ensures PunctualRun(t, es') && Exec(es') == Runner(HEARTBEAT_INTERVAL, 0, 0, None)
  {
    var waited := Apply(Beaten(0), Advance(HEARTBEAT_INTERVAL));
    FailureNext(t, waited);
    es' := ThenPunctual(t, es, Advance(HEARTBEAT_INTERVAL), Beaten(0), waited);
    es' := ThenPunctual(t, es', BeatFails(0), waited, Runner(HEARTBEAT_INTERVAL, 0, 0, None));
  }

  /** `k` punctual heartbeats, ten seconds apart. */
  lemma {:induction false} BeatOnTime(t: Timing, k: nat) returns (es: seq<Event>)
    requires k <= 30 && HEARTBEAT_INTERVAL * k <= t.jobLimit
    ensures PunctualRun(t, es) && Exec(es) == Beaten(k)
    decreases k
  {
    if k == 0 {
      var taken := TakeFirst(t);
      es := BeginFirst(t, taken, 0);
    } else {
      var before := BeatOnTime(t, k - 1);
      es := BeatOnce(t, before, k - 1);
    }
  }

  /** The first heartbeat fails, and no other follows. */
  lemma FirstBeatFails(t: Timing) returns (es: seq<Event>)
    requires !t.beatsWork && HEARTBEAT_INTERVAL <= t.jobLimit
    ensures PunctualRun(t, es) && Exec(es) == Runner(HEARTBEAT_INTERVAL, 0, 0, None)
  {
    var begun := BeatOnTime(t, 0);
    es := FailOnce(t, begun);
  }

  /** With an unsafe timing some punctual run leaves a live worker's row open to cleanup. */
  lemma UnsafeLosesLease(t: Timing) returns (es: seq<Event>)
    requires !Safe(t)
    ensures PunctualRun(t, es)
    ensures 0 in Exec(es).attempts && 0 in Exec(es).jobs && Live(Exec(es).attempts[0])
    ensures Exec(es).attempts[0].job == 0 && IsStale(Exec(es).jobs[0], Exec(es).now)
  {
    if !t.beatsWork {
      es := FirstBeatFails(t);
      es := Wait(t, es, 601);
    } else if t.jobLimit > STALE_AFTER + JOB_TIMEOUT {
      es := BeatOnTime(t, 30);
      es := Wait(t, es, 901);
    } else {
      es := TakeFirst(t);
      if t.startDelay <= STALE_AFTER {
        es := Wait(t, es, t.startDelay);
        es := BeginFirst(t, es, t.startDelay);
      }
      es := Wait(t, es, 601);
    }
  }

  /**
   The lease, exactly: every punctual run keeps it if and only if the timing is
   safe. The shipped numbers are safe for attempts of up to 900 seconds while every
   heartbeat's write works, and of up to 600 seconds when one may fail.
   */
  lemma LeaseTheorem(t: Timing)
    ensures Safe(t) <==> forall es | PunctualRun(t, es) :: LeaseHeld(Exec(es))
  {
    if Safe(t) {
      forall es | PunctualRun(t, es) ensures LeaseHeld(Exec(es)) {
        LeaseInvOfRun(t, es);
        LeaseInvHolds(t, Exec(es));
      }
    } else {
      var es := UnsafeLosesLease(t);
      assert !Owns(Exec(es), 0);
    }
  }

  /** One live worker a job, and it is the one the row names. */
  lemma OneLiveWorker(t: Timing, es: seq<Event>, v: WorkerId, w: WorkerId)
    requires Safe(t) && PunctualRun(t, es)
    requires v in Exec(es).attempts && w in Exec(es).attempts
    requires Live(Exec(es).attempts[v]) && Live(Exec(es).attempts[w])
    requires Exec(es).attempts[v].job == Exec(es).attempts[w].job
    ensures v == w
  {
    LeaseTheorem(t);
    assert Owns(Exec(es), v) && Owns(Exec(es), w);
  }

  /** Everything one event of a leased run can do to one row. */
  ghost predicate LeasedMove(s: State, e: Event, id: JobId, j: Job, j': Job) {
    || (j' == j && !(e.Take? && e.id == id) && e != Write(Retry, id))
    || (e.Beat? && j' == Patched(j, BeatAt(s.now)))
    || (e.Take? && e.id == id && j.status == Queued && j' == Patched(j, ClaimBy(e.w, s.now)))
    || (e.Finish? && j.status == Processing && j.worker == Some(e.w)
        && j' == Patched(j, OutcomeWrite(j.retryCount, e.outcome, s.now)))
    || (e.Cleanup? && IsStale(j, s.now) && j' == Patched(j, Reschedule)
        && forall w | w in s.attempts && Live(s.attempts[w]) :: s.attempts[w].job != id)
    || (e.Write? && e.id == id && j.status != Processing
        && j' == Patched(j, UserWrite(e.op, s.now)))
  }

  lemma LeasedStep(t: Timing, s: State, e: Event, id: JobId)
    requires LeaseHeld(s) && Enabled(s, e) && Punctual(t, s, e) && id in s.jobs
    ensures id in Apply(s, e).jobs && LeasedMove(s, e, id, s.jobs[id], Apply(s, e).jobs[id])
  {
    match e
    case Finish(w, _) => assert Owns(s, w);
    case Cleanup =>
      forall w | w in s.attempts && Live(s.attempts[w]) && IsStale(s.jobs[id], s.now)
        ensures s.attempts[w].job != id
      {
        assert Owns(s, w);
      }
    case _ =>
  }

  ghost predicate EndsByOwner(s: State, e: Event, id: JobId, j: Job, j': Job) {
    && (j.status == Processing && j'.status != Processing ==>
          || (e.Finish? && j.worker == Some(e.w)
              && j' == Patched(j, OutcomeWrite(j.retryCount, e.outcome, s.now)))
          || (e.Cleanup? && forall w | w in s.attempts && Live(s.attempts[w]) :: s.attempts[w].job != id))
    && (j.status == Completed && j'.status != Completed ==>
          e.Write? && e.id == id && (CheckPasses(e.op, j) ==> e.op == Undo && j'.status == Deleted))
  }

  lemma MoveByOwner(s: State, e: Event, id: JobId, j: Job, j': Job)
    requires LeasedMove(s, e, id, j, j')
    ensures EndsByOwner(s, e, id, j, j')
  {
  }

  /**
   How a row may leave `processing` or `completed` in a leased run: `processing`
   ends by its owner's own outcome, or by cleanup once no live worker is left;
   `completed` ends by a user's write alone, and by undo alone if the row still
   passes the check the user's request made.
   */
  lemma OutcomeByOwner(t: Timing, es: seq<Event>, id: JobId)
    requires Safe(t) && es != [] && PunctualRun(t, es) && id in Exec(es[..|es|-1]).jobs
    ensures id in Exec(es).jobs
    ensures var s, e := Exec(es[..|es|-1]), es[|es|-1];
            EndsByOwner(s, e, id, s.jobs[id], Exec(es).jobs[id])
  {
    var s, e := Exec(es[..|es|-1]), es[|es|-1];
    LeaseTheorem(t);
    LeasedStep(t, s, e, id);
    MoveByOwner(s, e, id, s.jobs[id], Exec(es).jobs[id]);
  }

  // ---- Attempts terminate ----

  ghost function Claims(es: seq<Event>, id: JobId): nat {
    if es == [] then 0
    else Claims(es[..|es|-1], id) + if es[|es|-1].Take? && es[|es|-1].id == id then 1 else 0
  }

  ghost function UserRetries(es: seq<Event>, id: JobId): nat {
    if es == [] then 0
    else UserRetries(es[..|es|-1], id) + if es[|es|-1] == Write(Retry, id) then 1 else 0
  }

  ghost function UserWrites(es: seq<Event>, id: JobId): nat {
    if es == [] then 0
    else UserWrites(es[..|es|-1], id) + if es[|es|-1].Write? && es[|es|-1].id == id then 1 else 0
  }

  /** How many events changed job `id`'s status after it was submitted. */
  ghost function Moves(es: seq<Event>, id: JobId): nat
    requires Legal(es)
  {
    if es == [] then 0
    else
      var before, after := Exec(es[..|es|-1]).jobs, Exec(es).jobs;
      Moves(es[..|es|-1], id)
      + if id in before && id in after && before[id].status != after[id].status then 1 else 0
  }

  /** (3 - retry_count, status), lexicographically, as one number. */
  function Rank(j: Job): int {
    4 * (MAX_RETRIES - j.retryCount) +
    match j.status
    case Queued => 3
    case Processing => 2
    case Deleted => 0
    case _ => 1
  }

  const TOP_RANK := 4 * MAX_RETRIES + 3

  function RankOf(jobs: map<JobId, Job>, id: JobId): int {
    if id in jobs then Rank(jobs[id]) else TOP_RANK
  }

  /** The claim a queued row still has coming, and those already made, are paid for by retries and user retries. */
  ghost predicate ClaimsCovered(claims: nat, userRetries: nat, jobs: map<JobId, Job>, id: JobId) {
    if id !in jobs then claims == 0
    else claims + (if jobs[id].status == Queued then 1 else 0) <= jobs[id].retryCount + 1 + userRetries
  }

  /** A status change lowers the rank, except that a user's write may raise it by three. */
  lemma RankStep(s: State, e: Event, id: JobId, j: Job, j': Job)
    requires LeasedMove(s, e, id, j, j')
    ensures if e.Write? && e.id == id then Rank(j') <= Rank(j) + 3
            else Rank(j') <= Rank(j) && (j'.status != j.status ==> Rank(j') < Rank(j))
  {
  }

  lemma ClaimsStep(s: State, e: Event, id: JobId, j: Job, j': Job)
    requires LeasedMove(s, e, id, j, j')
    ensures (if e.Take? && e.id == id then 1 else 0) + (if j'.status == Queued then 1 else 0) + j.retryCount
            <= (if j.status == Queued then 1 else 0) + j'.retryCount + (if e == Write(Retry, id) then 1 else 0)
  {
  }

  lemma {:induction false} AttemptsCovered(t: Timing, es: seq<Event>, id: JobId)
    requires Safe(t) && PunctualRun(t, es)
    ensures ClaimsCovered(Claims(es, id), UserRetries(es, id), Exec(es).jobs, id)
    ensures Moves(es, id) + RankOf(Exec(es).jobs, id) <= TOP_RANK + 4 * UserWrites(es, id)
    decreases |es|
  {
    if es != [] {
      var es', e := es[..|es|-1], es[|es|-1];
      var s := Exec(es');
      AttemptsCovered(t, es', id);
      if id in s.jobs {
        LeaseTheorem(t);
        LeasedStep(t, s, e, id);
        RankStep(s, e, id, s.jobs[id], Exec(es).jobs[id]);
        ClaimsStep(s, e, id, s.jobs[id], Exec(es).jobs[id]);
      } else {
        Unborn(s, e, id);
      }
    }
  }

  /** A job that is not there yet appears as a fresh row or not at all. */
  lemma Unborn(s: State, e: Event, id: JobId)
    requires Enabled(s, e) && id !in s.jobs
    ensures id in Apply(s, e).jobs ==> Apply(s, e).jobs[id].status == Queued && Apply(s, e).jobs[id].retryCount == 0
    ensures !(e.Take? && e.id == id)
  {
  }

  /** A leased run claims a job at most max_retries + 1 times plus once per user retry, and soon stops moving it. */
  lemma AttemptsTerminate(t: Timing, es: seq<Event>, id: JobId)
    requires Safe(t) && PunctualRun(t, es)
    ensures Claims(es, id) <= MAX_RETRIES + 1 + UserRetries(es, id)
    ensures Moves(es, id) <= TOP_RANK + 4 * UserWrites(es, id)
  {
    AttemptsCovered(t, es, id);
    CountsBounded(es);
  }

  predicate Terminal(j: Job) {
    j.status != Queued && j.status != Processing
  }

  /** Some idle worker can claim the job now, or cleanup will reschedule it at some later time. */
  ghost predicate WillBePickedUp(s: State, id: JobId, idle: WorkerId)
    requires id in s.jobs && idle !in s.attempts
  {
    || (exists locked :: Enabled(s, Take(idle, id, locked)))
    || (exists later :: s.now <= later && IsStale(s.jobs[id], later))
  }

  /** The queue gives up on a job exactly at a terminal status, or when it is processing with no retry left. */
  lemma StuckExactly(es: seq<Event>, id: JobId, idle: WorkerId)
    requires Legal(es) && id in Exec(es).jobs && idle !in Exec(es).attempts
    ensures var s := Exec(es);
            !WillBePickedUp(s, id, idle) <==>
            Terminal(s.jobs[id]) || (s.jobs[id].status == Processing && s.jobs[id].retryCount == MAX_RETRIES)
  {
    var s := Exec(es);
    CountsBounded(es);
    var j := s.jobs[id];
    if j.status == Queued {
      assert Enabled(s, Take(idle, id, s.jobs.Keys - {id}));
    } else if j.status == Processing && j.retryCount < MAX_RETRIES {
      var due := j.heartbeatAt.value + STALE_AFTER + 1;
      assert IsStale(j, if due < s.now then s.now else due);
    }
  }

  /** A worker that dies leaves its job to cleanup: over ten minutes after its last heartbeat it is queued again. */
  lemma CrashIsRecovered(s: State, w: WorkerId, to: int)
    requires w in s.attempts && Owns(s, w) && s.jobs[s.attempts[w].job].heartbeatAt.Some?
    requires s.attempts[w].snapshot < 3 && s.now <= to && s.jobs[s.attempts[w].job].heartbeatAt.value + 600 < to
    ensures var crashed := Apply(s, Crash(w));
            && Enabled(crashed, Advance(to))
            && var id, s' := s.attempts[w].job, Apply(Apply(crashed, Advance(to)), Cleanup);
               && w !in s'.attempts && id in s'.jobs && s'.jobs[id].status == Queued && s'.jobs[id].worker == None
               && s'.jobs[id].retryCount == s.attempts[w].snapshot + 1 && ClaimTarget(s'.jobs, s'.jobs.Keys - {id}, id)
  {
  }

  // ---- Runs at time 0 on one job ----

  /** A run, punctual when a timing is given. */
  ghost predicate Runs(t: Option<Timing>, es: seq<Event>) {
    if t.Some? then PunctualRun(t.value, es) else Legal(es)
  }

  lemma Then(t: Option<Timing>, es: seq<Event>, e: Event) returns (es': seq<Event>)
    requires Runs(t, es) && Enabled(Exec(es), e) && (t.Some? ==> Punctual(t.value, Exec(es), e))
    ensures es' == es + [e] && Runs(t, es') && Exec(es') == Apply(Exec(es), e)
  {
    Extend(es, e);
    if t.Some? {
      ExtendPunctual(t.value, es, e);
    }
    es' := es + [e];
  }

  /** The state at time 0 with one job. */
  function With(j: Job, attempts: map<WorkerId, Attempt>, pending: multiset<(UserOp, JobId)>): State {
    State(0, map[0 := j], attempts, pending)
  }

  lemma ThenSubmit(t: Option<Timing>) returns (es: seq<Event>)
    ensures Runs(t, es) && Exec(es) == With(NewJob(0, true), map[], multiset{})
  {
    es := Then(t, [], Submit(0, true));
  }

  lemma ThenCheck(t: Option<Timing>, es: seq<Event>, j: Job, attempts: map<WorkerId, Attempt>,
               pending: multiset<(UserOp, JobId)>, op: UserOp) returns (es': seq<Event>)
    requires Runs(t, es) && Exec(es) == With(j, attempts, pending) && CheckPasses(op, j)
    ensures es' == es + [Check(op, 0)] && Runs(t, es')
    ensures Exec(es') == With(j, attempts, pending + multiset{(op, 0)})
  {
    es' := Then(t, es, Check(op, 0));
  }

  lemma ThenWrite(t: Option<Timing>, es: seq<Event>, j: Job, attempts: map<WorkerId, Attempt>,
               pending: multiset<(UserOp, JobId)>, op: UserOp) returns (es': seq<Event>)
    requires Runs(t, es) && Exec(es) == With(j, attempts, pending + multiset{(op, 0)})
    requires t.Some? ==> j.status != Processing
    ensures es' == es + [Write(op, 0)] && Runs(t, es')
    ensures Exec(es') == With(Patched(j, UserWrite(op, 0)), attempts, pending)
  {
    assert pending + multiset{(op, 0)} - multiset{(op, 0)} == pending;
    es' := Then(t, es, Write(op, 0));
  }

  lemma ThenTake(t: Option<Timing>, es: seq<Event>, j: Job, attempts: map<WorkerId, Attempt>,
               pending: multiset<(UserOp, JobId)>, w: WorkerId) returns (es': seq<Event>)
    requires Runs(t, es) && Exec(es) == With(j, attempts, pending) && j.status == Queued && w !in attempts
    ensures es' == es + [Take(w, 0, {})] && Runs(t, es')
    ensures Exec(es')
         == With(Patched(j, ClaimBy(w, 0)), attempts[w := Attempt(0, j.retryCount, Claimed, 0, 0, None)], pending)
  {
    es' := Then(t, es, Take(w, 0, {}));
  }

  lemma ThenBegin(t: Option<Timing>, es: seq<Event>, j: Job, attempts: map<WorkerId, Attempt>,
               pending: multiset<(UserOp, JobId)>, w: WorkerId, retries: int) returns (es': seq<Event>)
    requires Runs(t, es) && Exec(es) == With(j, attempts, pending) && j.status != Cancelled && w in attempts
    requires attempts[w] == Attempt(0, retries, Claimed, 0, 0, None)
    ensures es' == es + [Begin(w)] && Runs(t, es')
    ensures Exec(es') == With(j, attempts[w := JustBegun(retries)], pending)
  {
    es' := Then(t, es, Begin(w));
  }

  lemma ThenFinish(t: Option<Timing>, es: seq<Event>, j: Job, attempts: map<WorkerId, Attempt>,
               pending: multiset<(UserOp, JobId)>, w: WorkerId, outcome: Outcome) returns (es': seq<Event>)
    requires Runs(t, es) && Exec(es) == With(j, attempts, pending) && w in attempts && attempts[w] == JustBegun(0)
    ensures es' == es + [Finish(w, outcome)] && Runs(t, es')
    ensures Exec(es') == With(Patched(j, OutcomeWrite(0, outcome, 0)), attempts - {w}, pending)
  {
    es' := Then(t, es, Finish(w, outcome));
  }

  function JustBegun(retries: int): Attempt {
    Attempt(0, retries, Running, 0, 0, Some(HEARTBEAT_INTERVAL))
  }

  /** Taking a job and beginning on it. */
  lemma ThenWork(t: Option<Timing>, es: seq<Event>, j: Job, attempts: map<WorkerId, Attempt>,
               pending: multiset<(UserOp, JobId)>, w: WorkerId) returns (es': seq<Event>)
    requires Runs(t, es) && Exec(es) == With(j, attempts, pending) && j.status == Queued && w !in attempts
    ensures Runs(t, es')
    ensures Exec(es') == With(Patched(j, ClaimBy(w, 0)), attempts[w := JustBegun(j.retryCount)], pending)
  {
    var claimed := attempts[w := Attempt(0, j.retryCount, Claimed, 0, 0, None)];
    es' := ThenTake(t, es, j, attempts, pending, w);
    es' := ThenBegin(t, es', Patched(j, ClaimBy(w, 0)), claimed, pending, w, j.retryCount);
    assert claimed[w := JustBegun(j.retryCount)] == attempts[w := JustBegun(j.retryCount)];
  }

  /** A user's request, check and write back to back. */
  lemma ThenRequest(t: Option<Timing>, es: seq<Event>, j: Job, attempts: map<WorkerId, Attempt>,
               pending: multiset<(UserOp, JobId)>, op: UserOp) returns (es': seq<Event>)
    requires Runs(t, es) && Exec(es) == With(j, attempts, pending) && CheckPasses(op, j)
    requires t.Some? ==> j.status != Processing
    ensures Runs(t, es') && Exec(es') == With(Patched(j, UserWrite(op, 0)), attempts, pending)
  {
    es' := ThenCheck(t, es, j, attempts, pending, op);
    es' := ThenWrite(t, es', j, attempts, pending, op);
  }

  // ---- Why the lease needs its hypothesis about users ----

  function Working(): Job {
    Patched(NewJob(0, true), ClaimBy(0, 0))
  }

  function CancelledJob(): Job {
    Patched(Working(), CancelAt(0))
  }

  function RetriedTwice(): Job {
    Patched(Patched(CancelledJob(), UserRequeue), ClaimBy(1, 0))
  }

  /** Cancelling a job that is being processed leaves its worker running. */
  lemma CancelWhileRunning() returns (es: seq<Event>)
    ensures Legal(es) && Exec(es) == With(CancelledJob(), map[0 := JustBegun(0)], multiset{})
  {
    es := ThenSubmit(None);
    es := ThenWork(None, es, NewJob(0, true), map[], multiset{}, 0);
    es := ThenRequest(None, es, Working(), map[0 := JustBegun(0)], multiset{}, Cancel);
  }

  /** Cancel then retry, each alone and in order: two live workers on one job. */
  lemma CancelThenRetryRunsTwice() returns (es: seq<Event>)
    ensures Legal(es)
    ensures Exec(es) == With(RetriedTwice(), map[0 := JustBegun(0), 1 := JustBegun(0)], multiset{})
  {
    es := CancelWhileRunning();
    es := ThenRequest(None, es, CancelledJob(), map[0 := JustBegun(0)], multiset{}, Retry);
    es := ThenWork(None, es, Patched(CancelledJob(), UserRequeue), map[0 := JustBegun(0)], multiset{}, 1);
  }

  lemma BothLive(s: State)
    requires s == With(RetriedTwice(), map[0 := JustBegun(0), 1 := JustBegun(0)], multiset{})
    ensures exists v, w :: v != w && v in s.attempts && w in s.attempts && Live(s.attempts[v]) && Live(s.attempts[w])
                           && s.attempts[v].job == s.attempts[w].job
  {
    assert 0 in s.attempts && 1 in s.attempts && Live(s.attempts[0]) && Live(s.attempts[1]);
  }

  /** So without the hypothesis on user writes the old worker completes the job and the new one queues it again. */
  lemma CompletedIsLostWithoutHypothesis() returns (es: seq<Event>, completed: seq<Event>)
    ensures Legal(es) && exists v, w :: v != w && v in Exec(es).attempts && w in Exec(es).attempts
                                        && Live(Exec(es).attempts[v]) && Live(Exec(es).attempts[w])
                                        && Exec(es).attempts[v].job == Exec(es).attempts[w].job
    ensures completed == es + [Finish(0, Imported(7))] && Legal(completed)
    ensures 0 in Exec(completed).jobs && Exec(completed).jobs[0].status == Completed
    ensures var lost := completed + [Finish(1, ImportFailed("late"))];
            Legal(lost) && 0 in Exec(lost).jobs && Exec(lost).jobs[0].status == Queued
  {
    es := CancelThenRetryRunsTwice();
    BothLive(Exec(es));
    var both := map[0 := JustBegun(0), 1 := JustBegun(0)];
    completed := ThenFinish(None, es, RetriedTwice(), both, multiset{}, 0, Imported(7));
    var done := Patched(RetriedTwice(), OutcomeWrite(0, Imported(7), 0));
    var lost := ThenFinish(None, completed, done, both - {0}, multiset{}, 1, ImportFailed("late"));
  }

  // ---- A user's request that went stale ----

  function JustCancelled(): Job {
    Patched(NewJob(0, true), CancelAt(0))
  }

  function Retried(): Job {
    Patched(JustCancelled(), UserRequeue)
  }

  /** A cancelled job that two users have asked to retry, one of whom has written. */
  lemma OneRetryPending(t: Timing) returns (es: seq<Event>)
    ensures PunctualRun(t, es) && Exec(es) == With(Retried(), map[], multiset{} + multiset{(Retry, 0)})
  {
    es := ThenSubmit(Some(t));
    es := ThenRequest(Some(t), es, NewJob(0, true), map[], multiset{}, Cancel);
    es := ThenCheck(Some(t), es, JustCancelled(), map[], multiset{}, Retry);
    es := ThenRequest(Some(t), es, JustCancelled(), map[], multiset{} + multiset{(Retry, 0)}, Retry);
  }

  /**
   A worker takes the job and completes it. The other user's write comes late and queues the
   completed job again, though no write hit a processing row.
   */
  lemma StaleRetryRevives(t: Timing) returns (completed: seq<Event>)
    ensures PunctualRun(t, completed) && 0 in Exec(completed).jobs && Exec(completed).jobs[0].status == Completed
    ensures var revived := completed + [Write(Retry, 0)];
            PunctualRun(t, revived) && 0 in Exec(revived).jobs && Exec(revived).jobs[0].status == Queued
  {
    var pending := multiset{} + multiset{(Retry, 0)};
    var taken := Patched(Retried(), ClaimBy(0, 0));
    completed := OneRetryPending(t);
    completed := ThenWork(Some(t), completed, Retried(), map[], pending, 0);
    completed := ThenFinish(Some(t), completed, taken, map[0 := JustBegun(0)], pending, 0, Imported(7));
    var revived := ThenWrite(Some(t), completed, Patched(taken, OutcomeWrite(0, Imported(7), 0)),
                             map[0 := JustBegun(0)] - {0}, multiset{}, Retry);
  }

  // ---- The worker's method is the protocol's uninterrupted run ----

  /** An event of worker `w` alone, within its deadlines: nobody else acts. */
  predicate Own(t: Timing, w: WorkerId, s: State, e: Event) {
    match e
    case Advance(to) => w in s.attempts ==> OnTime(t, s.attempts[w], to)
    case Take(v, _, _) => v == w
    case Begin(v) => v == w
    case Beat(v) => v == w
    case BeatFails(v) => v == w && !t.beatsWork
    case Finish(v, _) => v == w
    case EndNotice(v) => v == w
    case Cleanup => true
    case _ => false
  }

  /** Events of worker `w` alone, on time and taken from state `s`, end in `s'`. */
  ghost predicate Leads(t: Timing, w: WorkerId, s: State, es: seq<Event>, s': State)
    decreases |es|
  {
    if es == [] then s == s'
    else Enabled(s, es[0]) && Own(t, w, s, es[0]) && Leads(t, w, Apply(s, es[0]), es[1..], s')
  }

  lemma {:induction false} LeadsThen(t: Timing, w: WorkerId, s: State, es: seq<Event>, mid: State, e: Event)
    requires Leads(t, w, s, es, mid) && Enabled(mid, e) && Own(t, w, mid, e)
    ensures Leads(t, w, s, es + [e], Apply(mid, e))
    decreases |es|
  {
    if es == [] {
      assert (es + [e])[1..] == [];
    } else {
      assert (es + [e])[1..] == es[1..] + [e];
      LeadsThen(t, w, Apply(s, es[0]), es[1..], mid, e);
    }
  }

  /** Worker `w` just begun at `s.now`, `n` beats later. */
  function AfterSolo(s: State, w: WorkerId, a: Attempt, n: nat): State {
    State(s.now + HEARTBEAT_INTERVAL * n,
          if n == 0 then s.jobs else Update(s.jobs, a.job, BeatAt(s.now + HEARTBEAT_INTERVAL * n)),
          s.attempts[w := a.(nextBeat := if n < 30 then Some(s.now + HEARTBEAT_INTERVAL * (n + 1)) else None)],
          s.pending)
  }

  predicate Starting(s: State, w: WorkerId, a: Attempt) {
    && w in s.attempts && s.attempts[w] == a && a.job in s.jobs
    && a.phase == Running && a.claimedAt == a.startedAt == s.now && a.nextBeat == Some(s.now + HEARTBEAT_INTERVAL)
  }

  /** Waiting for a beat and making it, as states. */
  lemma SoloBeat(t: Timing, s: State, w: WorkerId, a: Attempt, n: nat, waited: State)
    requires Starting(s, w, a) && n < 30 && HEARTBEAT_INTERVAL * (n + 1) <= t.jobLimit
    requires waited == AfterSolo(s, w, a, n).(now := s.now + HEARTBEAT_INTERVAL * (n + 1))
    ensures var to := Advance(s.now + HEARTBEAT_INTERVAL * (n + 1));
            && Enabled(AfterSolo(s, w, a, n), to) && Own(t, w, AfterSolo(s, w, a, n), to)
            && Apply(AfterSolo(s, w, a, n), to) == waited
    ensures Enabled(waited, Beat(w)) && Own(t, w, waited, Beat(w))
    ensures Apply(waited, Beat(w)) == AfterSolo(s, w, a, n + 1)
  {
    assert waited.attempts[w].startedAt == s.now;
  }

  lemma {:induction false} SoloBeats(t: Timing, s: State, w: WorkerId, a: Attempt, n: nat) returns (es: seq<Event>)
    requires Starting(s, w, a) && n <= 30 && HEARTBEAT_INTERVAL * n <= t.jobLimit
    ensures Leads(t, w, s, es, AfterSolo(s, w, a, n))
  {
    if n == 0 {
      es := [];
      assert s.attempts[w := a] == s.attempts;
    } else {
      var es1 := SoloBeats(t, s, w, a, n - 1);
      var to := Advance(s.now + HEARTBEAT_INTERVAL * n);
      var waited := AfterSolo(s, w, a, n - 1).(now := s.now + HEARTBEAT_INTERVAL * n);
      SoloBeat(t, s, w, a, n - 1, waited);
      LeadsThen(t, w, s, es1, AfterSolo(s, w, a, n - 1), to);
      LeadsThen(t, w, s, es1 + [to], waited, Beat(w));
      es := es1 + [to] + [Beat(w)];
    }
  }

  /** Cleanup, claim and status read, back to back. */
  lemma SoloClaim(t: Timing, s: State, w: WorkerId, id: JobId) returns (es: seq<Event>, s': State, a: Attempt)
    requires w !in s.attempts && ClaimTarget(Swept(s.jobs, s.now), {}, id)
    ensures Leads(t, w, s, es, s') && Starting(s', w, a) && s'.now == s.now && s'.attempts - {w} == s.attempts
    ensures a.job == id && a.snapshot == Swept(s.jobs, s.now)[id].retryCount
    ensures s'.jobs == Update(Swept(s.jobs, s.now), id, ClaimBy(w, s.now))
  {
    var s1 := Apply(s, Cleanup);
    var s2 := Apply(s1, Take(w, id, {}));
    s' := Apply(s2, Begin(w));
    a := s'.attempts[w];
    es := [Cleanup, Take(w, id, {}), Begin(w)];
    assert Leads(t, w, s2, es[1..][1..], s') by { assert es[1..][1..] == [Begin(w)]; }
    assert Leads(t, w, s1, es[1..], s');
  }

  /** The beat due at `to` is not written, and no other follows. */
  lemma SoloFailure(t: Timing, s: State, w: WorkerId, to: int) returns (es: seq<Event>, s': State)
    requires !t.beatsWork && w in s.attempts && s.attempts[w].phase == Running && s.attempts[w].nextBeat == Some(to)
    requires s.now <= to <= s.attempts[w].claimedAt + t.jobLimit
    ensures Leads(t, w, s, es, s')
    ensures s' == s.(now := to, attempts := s.attempts[w := s.attempts[w].(nextBeat := None)])
  {
    var s1 := Apply(s, Advance(to));
    s' := Apply(s1, BeatFails(w));
    es := [Advance(to), BeatFails(w)];
    assert Leads(t, w, s1, es[1..], s') by { assert es[1..] == [BeatFails(w)]; }
  }

  lemma SoloFinish(t: Timing, s: State, w: WorkerId, outcome: Outcome, finish: int)
    returns (es: seq<Event>, s': State)
    requires w in s.attempts && s.attempts[w].phase == Running
    requires s.now <= finish <= s.attempts[w].claimedAt + t.jobLimit
    requires s.attempts[w].nextBeat.Some? ==> finish <= s.attempts[w].nextBeat.value + t.beatLag
    ensures Leads(t, w, s, es, s') && s'.now == finish && s'.attempts == s.attempts - {w}
    ensures s'.jobs == Update(s.jobs, s.attempts[w].job, OutcomeWrite(s.attempts[w].snapshot, outcome, finish))
  {
    var s1 := Apply(s, Advance(finish));
    s' := Apply(s1, Finish(w, outcome));
    es := [Advance(finish), Finish(w, outcome)];
    assert Leads(t, w, s1, es[1..], s') by { assert es[1..] == [Finish(w, outcome)]; }
    if w in s'.attempts {
      assert s'.attempts - {w} == s.attempts - {w};
      LeadsThen(t, w, s, es, s', EndNotice(w));
      es, s' := es + [EndNotice(w)], Apply(s', EndNotice(w));
    }
  }

  /** The attempt `a` of `w`, still running, with its beats up to `finish` behind it. */
  predicate Beating(s: State, w: WorkerId, a: Attempt, finish: int) {
    && w in s.attempts && s.now <= finish
    && s.attempts[w] == a.(nextBeat := s.attempts[w].nextBeat)
    && (s.attempts[w].nextBeat.Some? ==> finish <= s.attempts[w].nextBeat.value)
  }

  /** The heartbeat task up to `finish`: the beats that work and, if one is due that does not, the failure. */
  lemma SoloHeartbeats(t: Timing, s: State, w: WorkerId, a: Attempt, finish: int, good: nat)
    returns (es: seq<Event>, mid: State)
    requires Starting(s, w, a) && s.now <= finish <= s.now + t.jobLimit && (t.beatsWork ==> good >= 30)
    ensures Leads(t, w, s, es, mid) && Beating(mid, w, a, finish) && mid.attempts - {w} == s.attempts - {w}
    ensures mid.jobs == AfterBeats(s.jobs, a.job, s.now, finish, good)
  {
    var n := Beats(s.now, finish, good);
    es := SoloBeats(t, s, w, a, n);
    mid := AfterSolo(s, w, a, n);
    var next := s.now + HEARTBEAT_INTERVAL * (n + 1);
    if n < 30 && next <= finish {
      var failing, failed := SoloFailure(t, mid, w, next);
      LeadsJoin(t, w, s, es, mid, failing, failed);
      es, mid := es + failing, failed;
    }
  }

  /** From the first sleep of the heartbeat task to the outcome. */
  lemma SoloAttempt(t: Timing, s: State, w: WorkerId, a: Attempt, outcome: Outcome, finish: int, good: nat)
    returns (es: seq<Event>, s': State)
    requires Starting(s, w, a) && s.now <= finish <= s.now + t.jobLimit && (t.beatsWork ==> good >= 30)
    ensures Leads(t, w, s, es, s') && s'.now == finish && s'.attempts == s.attempts - {w}
    ensures s'.jobs == Update(AfterBeats(s.jobs, a.job, s.now, finish, good), a.job,
                              OutcomeWrite(a.snapshot, outcome, finish))
  {
    var beating, mid := SoloHeartbeats(t, s, w, a, finish, good);
    var finishing, done := SoloFinish(t, mid, w, outcome, finish);
    LeadsJoin(t, w, s, beating, mid, finishing, done);
    es, s' := beating + finishing, done;
  }

  /**
   ImportWorker.RunOnce, replayed by the protocol with nobody interleaving: cleanup, claim,
   status read, the heartbeats due by `finish` that work, then the outcome. The replay makes
   every beat the moment it is due, so it meets any timing the attempt is short enough for.
   */
  lemma RunOnceIsASoloRun(t: Timing, s: State, w: WorkerId, id: JobId, outcome: Outcome, finish: int, good: nat)
    returns (es: seq<Event>, s': State)
    requires w !in s.attempts && ClaimTarget(Swept(s.jobs, s.now), {}, id)
    requires s.now <= finish <= s.now + t.jobLimit && (t.beatsWork ==> good >= 30)
    ensures Leads(t, w, s, es, s') && s'.now == finish && s'.attempts == s.attempts
    ensures var swept := Swept(s.jobs, s.now);
            s'.jobs == Attempted(Update(swept, id, ClaimBy(w, s.now)), Claim(id, swept[id].retryCount),
                                 outcome, s.now, finish, good)
  {
    var claiming, s1, a := SoloClaim(t, s, w, id);
    var working, s2 := SoloAttempt(t, s1, w, a, outcome, finish, good);
    LeadsJoin(t, w, s, claiming, s1, working, s2);
    es, s' := claiming + working, s2;
  }

  lemma {:induction false} LeadsJoin(t: Timing, w: WorkerId, s: State, es: seq<Event>, mid: State,
                                     fs: seq<Event>, s': State)
    requires Leads(t, w, s, es, mid) && Leads(t, w, mid, fs, s')
    ensures Leads(t, w, s, es + fs, s')
    decreases |es|
  {
    if es == [] {
      assert es + fs == fs;
    } else {
      assert (es + fs)[1..] == es[1..] + fs;
      LeadsJoin(t, w, Apply(s, es[0]), es[1..], mid, fs, s');
    }
  }

  lemma OwnIsPunctual(t: Timing, w: WorkerId, s: State, e: Event)
    requires s.attempts.Keys <= {w} && Enabled(s, e) && Own(t, w, s, e)
    ensures Punctual(t, s, e) && Apply(s, e).attempts.Keys <= {w}
  {
  }

  lemma OwnStep(t: Timing, w: WorkerId, before: seq<Event>, e: Event)
    requires PunctualRun(t, before) && Exec(before).attempts.Keys <= {w}
    requires Enabled(Exec(before), e) && Own(t, w, Exec(before), e)
    ensures PunctualRun(t, before + [e]) && Exec(before + [e]) == Apply(Exec(before), e)
    ensures Exec(before + [e]).attempts.Keys <= {w}
  {
    OwnIsPunctual(t, w, Exec(before), e);
    ExtendPunctual(t, before, e);
  }

  /** With no other worker about, one worker's own run continues a punctual run. */
  lemma {:induction false} OwnRunIsPunctual(t: Timing, w: WorkerId, before: seq<Event>, es: seq<Event>, s': State)
    requires PunctualRun(t, before) && Exec(before).attempts.Keys <= {w} && Leads(t, w, Exec(before), es, s')
    ensures PunctualRun(t, before + es) && Exec(before + es) == s'
    decreases |es|
  {
    if es == [] {
      assert before + es == before;
    } else {
      OwnStep(t, w, before, es[0]);
      OwnRunIsPunctual(t, w, before + [es[0]], es[1..], s');
      assert before + [es[0]] + es[1..] == before + es;
    }
  }
}
