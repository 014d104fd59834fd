/**
 Whole runs of the agent: pushes and flushes in any order, whole or cut short, with any
 answers. Each batch is accounted for, by how often it was pushed.
 */
module PushRuns {
  import opened Induction
  import opened Options
  import opened PushQueue
  import opened Text

  /**
   `settled` collects the bodies whose push returned or raised. `dropped` collects those
   that a push or a flush let go although the server had not taken them.
   */
  datatype Store = Store(
    file: Option<string>,
    delivered: multiset<string>,
    settled: multiset<string>,
    dropped: multiset<string>)

  /**
   The agent is single-threaded, so a run is a sequence of operations, each whole
   or cut short: a push that dies may have reached the server and may have queued
   its body; a flush that dies after `k` lines has not rewritten the file.
   */
  datatype Op =
    | Push(body: string, answer: Answer, disk: Disk)
    | PushDies(body: string, reached: bool, appended: nat)
    | Flush(answers: nat -> Answer)
    | FlushDies(answers: nat -> Answer, k: nat)

  /** Whether the base URL names a host, whether that host never redirects, and whether appends always work. */
  datatype Setting = Setting(hostOk: bool, straight: bool, writable: bool)

  predicate Sound(g: Setting) {
    g.hostOk && g.straight && g.writable
  }

  /** A body as the JSON encoder prints it: on one line, and not blank. */
  predicate IsBody(s: string) {
    BreakFree(s) && !Blank(s)
  }

  ghost predicate Possible(g: Setting, s: Store, op: Op) {
    match op
    case Push(body, answer, disk) =>
      && IsBody(body)
      && (g.straight ==> !answer.Redirected?)
      && (g.writable ==> disk == Disk(true, true))
    case PushDies(body, _, _) => IsBody(body)
    case Flush(answers) => g.straight ==> forall i: nat :: !answers(i).Redirected?
    case FlushDies(_, k) => k <= |Queued(s.file)|
  }

  function Once(body: string, happens: bool): multiset<string> {
    if happens then multiset{body} else multiset{}
  }

  /** The lines a flush drops although the server has not taken them. */
  function Discarded(lines: seq<string>, answers: nat -> Answer, k: nat): multiset<string>
    requires k <= |lines|
  {
    if k == 0 then multiset{}
    else Discarded(lines, answers, k - 1) + Once(lines[k-1], !Blank(lines[k-1]) && answers(k-1).Redirected?)
  }

  ghost function Do(g: Setting, s: Store, op: Op): Store
    requires Possible(g, s, op)
  {
    var lines := Queued(s.file);
    match op
    case Push(body, answer, disk) =>
      if !g.hostOk then s.(settled := s.settled + multiset{body}, dropped := s.dropped + multiset{body})
      else Store(Append(s.file, body, Appends(answer, disk)),
                 s.delivered + Once(body, Reached(answer)),
                 s.settled + multiset{body},
                 s.dropped + Once(body, !Reached(answer) && Appends(answer, disk) == 0))
    case PushDies(body, reached, appended) =>
      if !g.hostOk then s
      else s.(file := Append(s.file, body, appended), delivered := s.delivered + Once(body, reached))
    case Flush(answers) =>
      var effective := Effective(g.hostOk, answers);
      s.(file := Flushed(s.file, effective),
         delivered := s.delivered + Delivery(lines, effective, |lines|),
         dropped := s.dropped + Discarded(lines, effective, |lines|))
    case FlushDies(answers, k) =>
      s.(delivered := s.delivered + Delivery(lines, Effective(g.hostOk, answers), k))
  }

  const FRESH := Store(None, multiset{}, multiset{}, multiset{})

  ghost predicate Run(g: Setting, ops: seq<Op>)
    decreases |ops|, 0
  {
    ops == [] || (Run(g, ops[..|ops|-1]) && Possible(g, After(g, ops[..|ops|-1]), ops[|ops|-1]))
  }

  ghost function After(g: Setting, ops: seq<Op>): Store
    requires Run(g, ops)
    decreases |ops|, 1
  {
    if ops == [] then FRESH else Do(g, After(g, ops[..|ops|-1]), ops[|ops|-1])
  }

  lemma Extend(g: Setting, ops: seq<Op>, op: Op)
    requires Run(g, ops) && Possible(g, After(g, ops), op)
    ensures Run(g, ops + [op]) && After(g, ops + [op]) == Do(g, After(g, ops), op)
  {
    assert (ops + [op])[..|ops|] == ops;
  }

  // ---- The file stays a queue of bodies ----

  lemma {:induction false} CopiesAre(body: string, times: nat)
    ensures |Copies(body, times)| == times && multiset(Copies(body, times))[body] == times
    ensures forall x | x in Copies(body, times) :: x == body
  {
    if times > 0 {
      CopiesAre(body, times - 1);
    }
  }

  ghost predicate Bodies(lines: seq<string>) {
    forall x | x in lines :: IsBody(x)
  }

  ghost predicate Intact(file: Option<string>) {
    WellFormed(file) && Bodies(Queued(file))
  }

  lemma {:induction false} KeptFromLines(lines: seq<string>, answers: nat -> Answer, k: nat)
    requires k <= |lines|
    ensures forall x | x in Kept(lines, answers, k) :: x in lines
    ensures forall x | x in Delivery(lines, answers, k) :: x in lines
  {
    if k > 0 {
      KeptFromLines(lines, answers, k - 1);
    }
  }

  lemma FlushIntact(file: Option<string>, answers: nat -> Answer)
    requires Intact(file)
    ensures Intact(Flushed(file, answers))
  {
    FlushLeavesFailed(file, answers);
    KeptFromLines(Queued(file), answers, |Queued(file)|);
  }

  lemma AppendIntact(file: Option<string>, body: string, times: nat)
    requires Intact(file) && IsBody(body)
    ensures Intact(Append(file, body, times))
    ensures Queued(Append(file, body, times)) == Queued(file) + Copies(body, times)
  {
    AppendQueues(file, body, times);
    CopiesAre(body, times);
  }

  // ---- Every batch is accounted for ----

  function Tally(x: string, line: string): nat {
    if x == line then 1 else 0
  }

  /** What line `k` adds to each of the four counts of `x`. */
  lemma LineCounts(lines: seq<string>, answers: nat -> Answer, k: nat, x: string)
    requires k < |lines| && !Blank(lines[k])
    ensures multiset(lines[..k+1])[x] == multiset(lines[..k])[x] + Tally(x, lines[k])
    ensures Delivery(lines, answers, k + 1)[x]
            == Delivery(lines, answers, k)[x] + if Reached(answers(k)) then Tally(x, lines[k]) else 0
    ensures multiset(Kept(lines, answers, k + 1))[x]
            == multiset(Kept(lines, answers, k))[x] + if Passed(answers(k)) then 0 else Tally(x, lines[k])
    ensures Discarded(lines, answers, k + 1)[x]
            == Discarded(lines, answers, k)[x] + if answers(k).Redirected? then Tally(x, lines[k]) else 0
  {
    assert lines[..k+1] == lines[..k] + [lines[k]];
  }

  /** Of body `x`, no more are among the first `k` lines than a flush has delivered, kept or discarded of them. */
  ghost predicate Accounts(lines: seq<string>, answers: nat -> Answer, k: nat, x: string)
    requires k <= |lines|
  {
    multiset(lines[..k])[x] <= Delivery(lines, answers, k)[x] + multiset(Kept(lines, answers, k))[x]
                               + Discarded(lines, answers, k)[x]
  }

  lemma NoLineAccounts(lines: seq<string>, answers: nat -> Answer, x: string)
    ensures Accounts(lines, answers, 0, x)
  {
  }

  lemma LinesAccount(lines: seq<string>, answers: nat -> Answer, x: string)
    requires Bodies(lines)
    ensures forall k | 0 <= k < |lines| && Accounts(lines, answers, k, x) :: Accounts(lines, answers, k + 1, x)
  {
    forall k | 0 <= k < |lines| && Accounts(lines, answers, k, x) ensures Accounts(lines, answers, k + 1, x) {
      assert lines[k] in lines;
      LineCounts(lines, answers, k, x);
    }
  }

  lemma FlushAccounts(lines: seq<string>, answers: nat -> Answer, x: string)
    requires Bodies(lines)
    ensures Accounts(lines, answers, |lines|, x)
  {
    var p := k => 0 <= k <= |lines| && Accounts(lines, answers, k, x);
    NoLineAccounts(lines, answers, x);
    LinesAccount(lines, answers, x);
    UpTo(p, |lines|);
  }

  /** How often body `x` is on the server, in the queue or dropped. */
  ghost function Held(s: Store, x: string): nat {
    s.delivered[x] + multiset(Queued(s.file))[x] + s.dropped[x]
  }

  lemma FlushHolds(g: Setting, s: Store, answers: nat -> Answer, x: string)
    requires Intact(s.file) && Possible(g, s, Flush(answers))
    ensures Held(Do(g, s, Flush(answers)), x) >= Held(s, x)
  {
    var lines, effective := Queued(s.file), Effective(g.hostOk, answers);
    FlushLeavesFailed(s.file, effective);
    FlushAccounts(lines, effective, x);
    assert lines[..|lines|] == lines;
  }

  lemma PushHolds(g: Setting, s: Store, op: Op, x: string)
    requires Intact(s.file) && Possible(g, s, op) && (op.Push? || op.PushDies?)
    ensures Held(Do(g, s, op), x) >= Held(s, x) + if op.Push? && x == op.body then 1 else 0
  {
    var times := if op.Push? then Appends(op.answer, op.disk) else op.appended;
    AppendIntact(s.file, op.body, times);
    CopiesAre(op.body, times);
  }

  lemma StepAccounts(g: Setting, s: Store, op: Op, x: string)
    requires Intact(s.file) && Possible(g, s, op) && s.settled[x] <= Held(s, x)
    ensures Do(g, s, op).settled[x] <= Held(Do(g, s, op), x)
    ensures Intact(Do(g, s, op).file)
  {
    match op
    case Push(body, answer, disk) =>
      PushHolds(g, s, op, x);
      AppendIntact(s.file, body, Appends(answer, disk));
    case PushDies(body, _, appended) =>
      PushHolds(g, s, op, x);
      AppendIntact(s.file, body, appended);
    case Flush(answers) =>
      FlushHolds(g, s, answers, x);
      FlushIntact(s.file, Effective(g.hostOk, answers));
    case FlushDies(_, _) =>
  }

  /**
   In every run, whatever the answers, the disk and the crashes: each batch is on the server,
   in the queue file or among the dropped at least as often as its push returned or raised.
   */
  lemma {:induction false} EveryBatchAccounted(g: Setting, ops: seq<Op>, x: string)
    requires Run(g, ops)
    ensures var s := After(g, ops); Intact(s.file) && s.settled[x] <= Held(s, x)
    decreases |ops|
  {
    if ops != [] {
      EveryBatchAccounted(g, ops[..|ops|-1], x);
      StepAccounts(g, After(g, ops[..|ops|-1]), ops[|ops|-1], x);
    }
  }

  lemma {:induction false} NoneDiscarded(lines: seq<string>, answers: nat -> Answer, k: nat)
    requires k <= |lines| && forall i: nat :: !answers(i).Redirected?
    ensures Discarded(lines, answers, k) == multiset{}
  {
    if k > 0 {
      NoneDiscarded(lines, answers, k - 1);
    }
  }

  /** With a host that takes what it answers and a disk that works, nothing is dropped. */
  lemma {:induction false} NothingIsDropped(g: Setting, ops: seq<Op>)
    requires Sound(g) && Run(g, ops)
    ensures After(g, ops).dropped == multiset{}
    decreases |ops|
  {
    if ops != [] {
      var s, op := After(g, ops[..|ops|-1]), ops[|ops|-1];
      NothingIsDropped(g, ops[..|ops|-1]);
      if op.Flush? {
        NoneDiscarded(Queued(s.file), op.answers, |Queued(s.file)|);
      }
    }
  }

  /** Settled batches are on the server or in the queue, each as often as it was pushed. */
  ghost predicate Safe(s: Store) {
    s.settled <= s.delivered + multiset(Queued(s.file))
  }

  lemma SafeAfter(g: Setting, ops: seq<Op>)
    requires Sound(g) && Run(g, ops)
    ensures Safe(After(g, ops))
  {
    var s := After(g, ops);
    NothingIsDropped(g, ops);
    forall x ensures s.settled[x] <= (s.delivered + multiset(Queued(s.file)))[x] {
      EveryBatchAccounted(g, ops, x);
    }
  }

  // ---- Each of the three conditions is needed ----

  /** A push that loses its batch: no host, a redirect that carries JSON, or a disk that fails. */
  function LosingPush(g: Setting): Op {
    if !g.hostOk then Push("{}", NoAnswer(false), Disk(true, true))
    else if !g.straight then Push("{}", Redirected(true), Disk(true, true))
    else Push("{}", NoAnswer(false), Disk(false, false))
  }

  lemma BracesAreABody()
    ensures IsBody("{}")
  {
    assert !IsSpace("{}"[0]) && !IsBreak("{}"[0]) && !IsBreak("{}"[1]);
  }

  lemma LosingPushIsPossible(g: Setting, s: Store)
    requires !Sound(g)
    ensures Possible(g, s, LosingPush(g))
  {
    BracesAreABody();
  }

  lemma LosingPushDrops(g: Setting, s: Store)
    requires !Sound(g) && Possible(g, s, LosingPush(g))
    ensures Do(g, s, LosingPush(g))
         == s.(settled := s.settled + multiset{"{}"}, dropped := s.dropped + multiset{"{}"})
  {
    assert s.delivered + multiset{} == s.delivered;
  }

  lemma DroppedIsUnsafe()
    ensures !Safe(Store(None, multiset{}, multiset{"{}"}, multiset{"{}"}))
  {
    assert Queued(None) == [];
    assert multiset{"{}"}["{}"] == 1;
  }

  lemma LosesBatch(g: Setting) returns (ops: seq<Op>)
    requires !Sound(g)
    ensures Run(g, ops) && !Safe(After(g, ops))
  {
    LosingPushIsPossible(g, FRESH);
    LosingPushDrops(g, FRESH);
    DroppedIsUnsafe();
    Extend(g, [], LosingPush(g));
    ops := [] + [LosingPush(g)];
  }

  /**
   No loss, exactly: in every run each batch whose push returned or raised is on the server or
   a line of the queue file, counting copies, if and only if the base URL names a host, the
   host never redirects and appends to the file work.
   */
  lemma NothingIsLost(g: Setting)
    ensures Sound(g) <==> forall ops | Run(g, ops) :: Safe(After(g, ops))
  {
    if Sound(g) {
      forall ops | Run(g, ops) ensures Safe(After(g, ops)) {
        SafeAfter(g, ops);
      }
    } else {
      var ops := LosesBatch(g);
    }
  }

  /** A queued batch is lost too: the push raises on a redirect without JSON, the next flush drops it. */
  lemma RedirectDropsQueued(body: string) returns (ops: seq<Op>)
    requires IsBody(body)
    ensures var g := Setting(true, false, true);
            && Run(g, ops) && After(g, ops).settled == multiset{body}
            && After(g, ops).delivered == multiset{} && Queued(After(g, ops).file) == []
  {
    var g, redirect := Setting(true, false, true), Redirected(false);
    var push := Push(body, redirect, Disk(true, true));
    Extend(g, [], push);
    var pushed := After(g, [] + [push]);
    assert Intact(None) by { assert Queued(None) == []; }
    AppendIntact(None, body, 1);
    assert Queued(pushed.file) == [body];
    Extend(g, [] + [push], Flush(_ => redirect));
    ops := [] + [push] + [Flush(_ => redirect)];
    FlushLeavesFailed(pushed.file, _ => redirect);
    PassedLeavesNone([body], _ => redirect, 1);
  }

  /**
   Nothing is lost, but a batch can arrive twice: a flush that dies with every line sent and the
   file not yet rewritten leaves them all for the next flush to send again.
   */
  lemma DeadFlushSendsTwice(g: Setting, body: string) returns (ops: seq<Op>)
    requires Sound(g) && IsBody(body)
    ensures Run(g, ops) && After(g, ops).settled == multiset{body}
    ensures After(g, ops).delivered == multiset{body, body} && Queued(After(g, ops).file) == []
  {
    var unanswered, answers := Push(body, NoAnswer(false), Disk(true, true)), (_ => Accepted(true));
    var queued := Unanswered(g, body);
    Extend(g, [], unanswered);
    DeadFlush(g, queued, body, answers);
    ops := [] + [unanswered];
    Extend(g, ops, FlushDies(answers, 1));
    ops := ops + [FlushDies(answers, 1)];
    Extend(g, ops, Flush(answers));
    ops := ops + [Flush(answers)];
  }

  /** A first push without an answer: its body is queued. */
  lemma Unanswered(g: Setting, body: string) returns (queued: Store)
    requires Sound(g) && IsBody(body)
    ensures var push := Push(body, NoAnswer(false), Disk(true, true));
            Possible(g, FRESH, push) && Do(g, FRESH, push) == queued
    ensures queued.delivered == multiset{} && queued.settled == multiset{body} && Queued(queued.file) == [body]
  {
    queued := Store(Append(None, body, 1), multiset{}, multiset{body}, multiset{});
    assert Intact(None) by { assert Queued(None) == []; }
    AppendIntact(None, body, 1);
    assert Copies(body, 1) == [body];
  }

  /** The flush that dies and the one after it, as stores. */
  lemma DeadFlush(g: Setting, s: Store, body: string, answers: nat -> Answer)
    requires Sound(g) && !Blank(body) && Queued(s.file) == [body] && forall i: nat :: answers(i) == Accepted(true)
    ensures Possible(g, s, FlushDies(answers, 1))
    ensures Do(g, s, FlushDies(answers, 1)) == s.(delivered := s.delivered + multiset{body})
    ensures var s' := s.(delivered := s.delivered + multiset{body});
            && Possible(g, s', Flush(answers))
            && Do(g, s', Flush(answers)).delivered == s.delivered + multiset{body} + multiset{body}
            && Do(g, s', Flush(answers)).settled == s.settled && Queued(Do(g, s', Flush(answers)).file) == []
  {
    assert Delivery([body], answers, 0) == multiset{};
    assert Delivery([body], answers, 1) == multiset{body};
    FlushLeavesFailed(s.file, answers);
    PassedLeavesNone([body], answers, 1);
  }

  lemma {:induction false} PassedLeavesNone(lines: seq<string>, answers: nat -> Answer, k: nat)
    requires k <= |lines| && forall i: nat | i < k :: Passed(answers(i))
    ensures Kept(lines, answers, k) == []
    ensures (forall i: nat | i < k :: answers(i).Redirected?) ==> Delivery(lines, answers, k) == multiset{}
  {
    if k > 0 {
      PassedLeavesNone(lines, answers, k - 1);
    }
  }

  /** With no host in the base URL nothing is ever sent or queued, though each push raises. */
  lemma {:induction false} NoHostKeepsNothing(g: Setting, ops: seq<Op>)
    requires !g.hostOk && Run(g, ops)
    ensures Queued(After(g, ops).file) == [] && After(g, ops).delivered == multiset{}
    decreases |ops|
  {
    if ops != [] {
      NoHostKeepsNothing(g, ops[..|ops|-1]);
      NoHostStep(g, After(g, ops[..|ops|-1]), ops[|ops|-1]);
    }
  }

  lemma NoHostStep(g: Setting, s: Store, op: Op)
    requires !g.hostOk && Possible(g, s, op) && Queued(s.file) == [] && s.delivered == multiset{}
    ensures Queued(Do(g, s, op).file) == [] && Do(g, s, op).delivered == multiset{}
  {
  }

  /**
   In a sound setting a flush whose every answer passes empties the queue, and then every
   settled batch is on the server.
   */
  lemma DrainDelivers(g: Setting, ops: seq<Op>, answers: nat -> Answer)
    requires Sound(g) && Run(g, ops) && Possible(g, After(g, ops), Flush(answers))
    requires forall i: nat | i < |Queued(After(g, ops).file)| :: Passed(answers(i))
    ensures var s := Do(g, After(g, ops), Flush(answers));
            Queued(s.file) == [] && s.settled <= s.delivered
  {
    var s := After(g, ops);
    Extend(g, ops, Flush(answers));
    SafeAfter(g, ops + [Flush(answers)]);
    FlushLeavesFailed(s.file, answers);
    PassedLeavesNone(Queued(s.file), answers, |Queued(s.file)|);
  }

  // ---- Nothing is invented ----

  predicate Pushes(op: Op, body: string) {
    (op.Push? || op.PushDies?) && op.body == body
  }

  ghost predicate Present(s: Store, body: string) {
    body in s.delivered || body in Queued(s.file)
  }

  lemma FlushInventsNothing(g: Setting, s: Store, op: Op, body: string)
    requires Possible(g, s, op) && (op.Flush? || op.FlushDies?) && Present(Do(g, s, op), body)
    ensures Present(s, body)
  {
    var lines, effective := Queued(s.file), Effective(g.hostOk, op.answers);
    if op.Flush? {
      FlushLeavesFailed(s.file, effective);
    }
    KeptFromLines(lines, effective, if op.Flush? then |lines| else op.k);
  }

  lemma PushInventsNothing(g: Setting, s: Store, op: Op, body: string)
    requires Possible(g, s, op) && (op.Push? || op.PushDies?) && Intact(s.file) && Present(Do(g, s, op), body)
    ensures Present(s, body) || body == op.body
  {
    var times := if op.Push? then Appends(op.answer, op.disk) else op.appended;
    AppendIntact(s.file, op.body, times);
    CopiesAre(op.body, times);
  }

  /** What the server has and what the queue holds are bodies that were pushed. */
  lemma {:induction false} NothingIsInvented(g: Setting, ops: seq<Op>, body: string)
    requires Run(g, ops) && Present(After(g, ops), body)
    ensures exists i :: 0 <= i < |ops| && Pushes(ops[i], body)
    decreases |ops|
  {
    if ops != [] {
      var n := |ops| - 1;
      var s := After(g, ops[..n]);
      EveryBatchAccounted(g, ops[..n], body);
      if Pushes(ops[n], body) {
        assert Pushes(ops[n], body);
      } else {
        if ops[n].Push? || ops[n].PushDies? {
          PushInventsNothing(g, s, ops[n], body);
        } else {
          FlushInventsNothing(g, s, ops[n], body);
        }
        NothingIsInvented(g, ops[..n], body);
        var i :| 0 <= i < n && Pushes(ops[..n][i], body);
        assert Pushes(ops[i], body);
      }
    }
  }
}
