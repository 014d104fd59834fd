/**
 The agent's offline queue: a text file with one JSON body per line, appended to
 when a push fails and rewritten by every flush. `file` is the text that reading
 the queue file gives; None means there is no file. Module PushRuns follows whole
 runs of the agent.
 */
module PushQueue {
  import opened Options
  import opened Text

  // ---- Lines ----

  predicate BreakFree(s: string) {
    forall i | 0 <= i < |s| :: !IsBreak(s[i])
  }

  /** Index of the first line break, or the length. */
  function LineEnd(text: string): (n: nat)
    ensures n <= |text| && BreakFree(text[..n])
    ensures n < |text| ==> IsBreak(text[n])
  {
    if text == "" || IsBreak(text[0]) then 0
    else
      var n := LineEnd(text[1..]);
      assert text[..n+1] == [text[0]] + text[1..][..n];
      1 + n
  }

  /** `str.splitlines`: a carriage return and a line feed end one line together. */
  function SplitLines(text: string): (lines: seq<string>)
    ensures forall i | 0 <= i < |lines| :: BreakFree(lines[i])
    decreases |text|
  {
    if text == "" then []
    else
      var n := LineEnd(text);
      if n == |text| then [text]
      else
        var width := if text[n] == '\r' && n + 1 < |text| && text[n+1] == '\n' then 2 else 1;
        [text[..n]] + SplitLines(text[n+width..])
  }

  /** `"\n".join(lines)`. */
  function Join(lines: seq<string>): string {
    if lines == [] then "" else if |lines| == 1 then lines[0] else lines[0] + "\n" + Join(lines[1..])
  }

  /** What flush writes back. */
  function Written(lines: seq<string>): string {
    Join(lines) + if lines == [] then "" else "\n"
  }

  ghost predicate Lines(lines: seq<string>) {
    forall i | 0 <= i < |lines| :: BreakFree(lines[i])
  }

  lemma SplitFirst(line: string, rest: string)
    requires BreakFree(line)
    ensures SplitLines(line + "\n" + rest) == [line] + SplitLines(rest)
  {
    SplitAtBreak(line, '\n', rest);
  }

  /** Any break ends a line, and a carriage return takes a line feed behind it along. */
  lemma SplitAtBreak(line: string, b: char, rest: string)
    requires BreakFree(line) && IsBreak(b)
    ensures SplitLines(line + [b] + rest)
         == [line] + SplitLines(if b == '\r' && rest != "" && rest[0] == '\n' then rest[1..] else rest)
  {
    var text := line + [b] + rest;
    BreakAt(line, b, rest);
    assert text[..|line|] == line;
    assert text[|line|+1..] == rest;
    assert rest != "" ==> text[|line|+1] == rest[0] && text[|line|+2..] == rest[1..];
  }

  lemma {:induction false} BreakAt(line: string, b: char, rest: string)
    requires BreakFree(line) && IsBreak(b)
    ensures LineEnd(line + [b] + rest) == |line|
    decreases |line|
  {
    var text := line + [b] + rest;
    if line != "" {
      BreakAt(line[1..], b, rest);
      assert text[1..] == line[1..] + [b] + rest;
      assert text[0] == line[0];
    }
  }

  lemma WrittenCons(line: string, rest: seq<string>)
    ensures Written([line] + rest) == line + "\n" + Written(rest)
  {
    assert ([line] + rest)[1..] == rest;
  }

  /** Write then split: the same lines, whatever break-free lines they are. */
  lemma {:induction false} WrittenSplits(lines: seq<string>)
    requires Lines(lines)
    ensures SplitLines(Written(lines)) == lines
    decreases |lines|
  {
    if lines != [] {
      assert lines == [lines[0]] + lines[1..];
      WrittenCons(lines[0], lines[1..]);
      SplitFirst(lines[0], Written(lines[1..]));
      WrittenSplits(lines[1..]);
    }
  }

  /** Appending a line and its newline to a written file appends the line. */
  lemma {:induction false} WrittenSnoc(lines: seq<string>, line: string)
    ensures Written(lines + [line]) == Written(lines) + line + "\n"
    decreases |lines|
  {
    if lines == [] {
      assert [] + [line] == [line] + [];
      WrittenCons(line, []);
    } else {
      var rest := lines[1..];
      assert lines == [lines[0]] + rest;
      assert lines + [line] == [lines[0]] + (rest + [line]);
      WrittenCons(lines[0], rest + [line]);
      WrittenCons(lines[0], rest);
      WrittenSnoc(rest, line);
    }
  }

  // ---- The file as a queue ----

  function FileText(file: Option<string>): string {
    if file.Some? then file.value else ""
  }

  /** The lines in the queue file. */
  function Queued(file: Option<string>): seq<string> {
    SplitLines(FileText(file))
  }

  /** A queue file the agent wrote: whole lines, each ended by a newline. */
  ghost predicate WellFormed(file: Option<string>) {
    FileText(file) == Written(Queued(file))
  }

  function Append(file: Option<string>, body: string, times: nat): Option<string> {
    if times == 0 then file else Some(FileText(Append(file, body, times - 1)) + body + "\n")
  }

  function Copies(body: string, times: nat): seq<string> {
    if times == 0 then [] else Copies(body, times - 1) + [body]
  }

  /** The file is those lines, each ended by a newline. */
  ghost predicate Holds(file: Option<string>, lines: seq<string>) {
    FileText(file) == Written(lines) && Lines(lines)
  }

  lemma AppendHolds(file: Option<string>, lines: seq<string>, body: string)
    requires Holds(file, lines) && BreakFree(body)
    ensures Holds(Some(FileText(file) + body + "\n"), lines + [body])
  {
    WrittenSnoc(lines, body);
  }

  lemma HeldIsQueued(file: Option<string>, lines: seq<string>)
    requires Holds(file, lines)
    ensures Queued(file) == lines && WellFormed(file)
  {
    WrittenSplits(lines);
  }

  /** Appending a body to a file the agent wrote adds one line at the end of the queue. */
  lemma AppendOne(file: Option<string>, body: string)
    requires WellFormed(file) && BreakFree(body)
    ensures WellFormed(Some(FileText(file) + body + "\n"))
    ensures Queued(Some(FileText(file) + body + "\n")) == Queued(file) + [body]
  {
    AppendHolds(file, Queued(file), body);
    HeldIsQueued(Some(FileText(file) + body + "\n"), Queued(file) + [body]);
  }

  lemma {:induction false} AppendAll(file: Option<string>, lines: seq<string>, body: string, times: nat)
    requires Holds(file, lines) && BreakFree(body)
    ensures Holds(Append(file, body, times), lines + Copies(body, times))
  {
    if times == 0 {
      assert lines + Copies(body, 0) == lines;
    } else {
      AppendAll(file, lines, body, times - 1);
      AppendHolds(Append(file, body, times - 1), lines + Copies(body, times - 1), body);
      assert lines + Copies(body, times - 1) + [body] == lines + Copies(body, times);
    }
  }

  lemma AppendQueues(file: Option<string>, body: string, times: nat)
    requires WellFormed(file) && BreakFree(body)
    ensures WellFormed(Append(file, body, times))
    ensures Queued(Append(file, body, times)) == Queued(file) + Copies(body, times)
  {
    AppendAll(file, Queued(file), body, times);
    HeldIsQueued(Append(file, body, times), Queued(file) + Copies(body, times));
  }

  // ---- One push, one flush ----

  /**
   What one POST came to. Accepted: the server took the body and answered with JSON or not.
   Redirected: a status from 300 to 399, which the client does not follow and the server has
   taken nothing. Refused: a status of 400 or more. NoAnswer: an exception, the body having
   reached the server or not.
   */
  datatype Answer = Accepted(json: bool) | Redirected(json: bool) | Refused | NoAnswer(reached: bool)

  predicate Reached(a: Answer) {
    a.Accepted? || (a.NoAnswer? && a.reached)
  }

  /** A status below 400, all that the agent looks at. */
  predicate Passed(a: Answer) {
    a.Accepted? || a.Redirected?
  }

  /** The flush checks the host for each line inside its try: with no host every line fails. */
  function Effective(hostOk: bool, answers: nat -> Answer): nat -> Answer {
    if hostOk then answers else i => NoAnswer(false)
  }

  /** The lines that stay of the first `k`: those not blank whose answer did not pass. */
  function Kept(lines: seq<string>, answers: nat -> Answer, k: nat): seq<string>
    requires k <= |lines|
  {
    if k == 0 then []
    else Kept(lines, answers, k - 1)
         + if Blank(lines[k-1]) || Passed(answers(k-1)) then [] else [lines[k-1]]
  }

  function SentCount(lines: seq<string>, answers: nat -> Answer, k: nat): nat
    requires k <= |lines|
  {
    if k == 0 then 0
    else SentCount(lines, answers, k - 1) + if !Blank(lines[k-1]) && Passed(answers(k-1)) then 1 else 0
  }

  /** What the server has got from the first `k` lines. */
  function Delivery(lines: seq<string>, answers: nat -> Answer, k: nat): multiset<string>
    requires k <= |lines|
  {
    if k == 0 then multiset{}
    else Delivery(lines, answers, k - 1)
         + if !Blank(lines[k-1]) && Reached(answers(k-1)) then multiset{lines[k-1]} else multiset{}
  }

  /** With no host a flush sends nothing, and says so. */
  lemma {:induction false} NothingSent(lines: seq<string>, answers: nat -> Answer, k: nat)
    requires k <= |lines|
    ensures SentCount(lines, Effective(false, answers), k) == 0
    ensures Delivery(lines, Effective(false, answers), k) == multiset{}
  {
    if k > 0 {
      NothingSent(lines, answers, k - 1);
    }
  }

  /** The queue file after a flush; a file without lines is left alone. */
  function Flushed(file: Option<string>, answers: nat -> Answer): Option<string> {
    var lines := Queued(file);
    if lines == [] then file else Some(Written(Kept(lines, answers, |lines|)))
  }

  /** Whether a push's first and second append to the file work, if it comes to them. */
  datatype Disk = Disk(first: bool, second: bool)

  /** How often a failed push appends its body: twice for an error status, else once, as far as the disk lets it. */
  function Appends(a: Answer, disk: Disk): nat {
    match a
    case Accepted(json) => if !json && disk.first then 1 else 0
    case Redirected(json) => if !json && disk.first then 1 else 0
    case Refused => (if disk.first then 1 else 0) + (if disk.second then 1 else 0)
    case NoAnswer(_) => if disk.first then 1 else 0
  }

  /** The lines a push that raises adds to the queue. */
  lemma AppendsQueue(file: Option<string>, body: string, a: Answer, disk: Disk)
    requires WellFormed(file) && BreakFree(body)
    ensures a != Accepted(true) && a != Redirected(true) ==>
              var after := Append(file, body, Appends(a, disk));
              && WellFormed(after)
              && Queued(after) == Queued(file) + (if disk.first then [body] else [])
                                               + (if a.Refused? && disk.second then [body] else [])
  {
    AppendQueues(file, body, Appends(a, disk));
    assert Copies(body, 0) == [] && Copies(body, 1) == [body] && Copies(body, 2) == [body] + [body];
  }

  class PushClient {
    /** Whether the configured base URL names a host. */
    const hostOk: bool
    var file: Option<string>
    /** The bodies the server has taken. */
    ghost var delivered: multiset<string>

    constructor (hostOk: bool, file: Option<string>)
      ensures this.hostOk == hostOk && this.file == file && delivered == multiset{}
    {
      this.hostOk := hostOk;
      this.file := file;
      delivered := multiset{};
    }

    /** False is the exception of an append that fails. */
    method Enqueue(body: string, works: bool) returns (ok: bool)
      modifies this`file
      ensures ok == works && file == Append(old(file), body, if ok then 1 else 0)
      ensures WellFormed(old(file)) && BreakFree(body) ==>
                WellFormed(file) && Queued(file) == Queued(old(file)) + if ok then [body] else []
    {
      if !works {
        return false;
      }
      if WellFormed(file) && BreakFree(body) {
        AppendOne(file, body);
      }
      file := Some(FileText(file) + body + "\n");
      ok := true;
    }

    /** True when push returns, false when it raises. */
    method PushVouchers(body: string, answer: Answer, disk: Disk) returns (returned: bool)
      modifies this
      ensures !hostOk ==> !returned && file == old(file) && delivered == old(delivered)
      ensures hostOk ==>
                && returned == (answer == Accepted(true) || answer == Redirected(true))
                && file == Append(old(file), body, Appends(answer, disk))
                && delivered == old(delivered) + if answer.Accepted? || answer == NoAnswer(true)
                                                 then multiset{body} else multiset{}
      ensures returned ==> file == old(file)
      ensures hostOk && !returned && WellFormed(old(file)) && BreakFree(body) ==>
                && WellFormed(file)
                && Queued(file) == Queued(old(file)) + (if disk.first then [body] else [])
                                                     + (if answer.Refused? && disk.second then [body] else [])
    {
      if !hostOk {
        return false;
      }
      if WellFormed(file) && BreakFree(body) {
        AppendsQueue(file, body, answer, disk);
      }
      if Reached(answer) {
        delivered := delivered + multiset{body};
      }
      if answer.Refused? {
        // The append, or else raising for the status, lands in the handler, which appends again.
        var _ := Enqueue(body, disk.first);
        var _ := Enqueue(body, disk.second);
        returned := false;
      } else if Passed(answer) && answer.json {
        returned := true;
      } else {
        var _ := Enqueue(body, disk.first);
        returned := false;
      }
    }

    method FlushQueue(answers: nat -> Answer) returns (sent: nat)
      modifies this
      ensures var lines, effective := Queued(old(file)), Effective(hostOk, answers);
              && file == Flushed(old(file), effective)
              && sent == SentCount(lines, effective, |lines|)
              && delivered == old(delivered) + Delivery(lines, effective, |lines|)
    {
      sent := 0;
      if file.None? {
        return;
      }
      var lines := SplitLines(file.value);
      if lines == [] {
        return;
      }
      var effective := Effective(hostOk, answers);
      var remaining: seq<string> := [];
      for i := 0 to |lines|
        invariant file == old(file)
        invariant remaining == Kept(lines, effective, i)
        invariant sent == SentCount(lines, effective, i)
        invariant delivered == old(delivered) + Delivery(lines, effective, i)
      {
        var line := lines[i];
        if !Blank(line) {
          if Reached(effective(i)) {
            delivered := delivered + multiset{line};
          }
          if Passed(effective(i)) {
            sent := sent + 1;
          } else {
            remaining := remaining + [line];
          }
        }
      }
      file := Some(Written(remaining));
    }
  }

  /** What fetching from Tally gave the scheduler. */
  datatype Fetch = Rows(body: string) | NoRows | FetchFailed(reason: string)

  class Scheduler {
    const client: PushClient
    var lastSyncOkAt: Option<int>
    var lastError: Option<string>

    constructor (client: PushClient)
      ensures this.client == client && lastSyncOkAt == None && lastError == None
    {
      this.client := client;
      lastSyncOkAt, lastError := None, None;
    }

    /** Flush, fetch, push, in that order; true is "ok". A push that raises is the error. */
    method RunOnce(answers: nat -> Answer, fetched: Fetch, answer: Answer, disk: Disk, failure: string, now: int)
      returns (ok: bool)
      modifies this, client
      ensures ok <==> fetched.NoRows?
                      || (fetched.Rows? && client.hostOk && (answer == Accepted(true) || answer == Redirected(true)))
      ensures ok ==> lastSyncOkAt == Some(now) && lastError == None
      ensures !ok ==> lastSyncOkAt == old(lastSyncOkAt)
                      && lastError == Some(if fetched.FetchFailed? then fetched.reason else failure)
      ensures var flushed := Flushed(old(client.file), Effective(client.hostOk, answers));
              client.file == if fetched.Rows? && client.hostOk
                             then Append(flushed, fetched.body, Appends(answer, disk)) else flushed
      ensures var lines := Queued(old(client.file));
              client.delivered == old(client.delivered) + Delivery(lines, Effective(client.hostOk, answers), |lines|)
                + if fetched.Rows? && client.hostOk && Reached(answer) then multiset{fetched.body} else multiset{}
    {
      var _ := client.FlushQueue(answers);
      var error := failure;
      ok := true;
      if fetched.FetchFailed? {
        ok, error := false, fetched.reason;
      } else if fetched.Rows? {
        ok := client.PushVouchers(fetched.body, answer, disk);
      }
      if ok {
        lastSyncOkAt, lastError := Some(now), None;
      } else {
        lastError := Some(error);
      }
    }
  }

  // ---- Exactly what a flush leaves ----

  lemma {:induction false} KeptLines(lines: seq<string>, answers: nat -> Answer, k: nat)
    requires k <= |lines| && Lines(lines)
    ensures Lines(Kept(lines, answers, k))
  {
    if k > 0 {
      KeptLines(lines, answers, k - 1);
    }
  }

  /** After a flush the queue reads back as exactly the lines kept, in their order. */
  lemma FlushLeavesFailed(file: Option<string>, answers: nat -> Answer)
    ensures Queued(Flushed(file, answers)) == Kept(Queued(file), answers, |Queued(file)|)
    ensures WellFormed(file) ==> WellFormed(Flushed(file, answers))
  {
    var lines := Queued(file);
    if lines != [] {
      KeptLines(lines, answers, |lines|);
      WrittenSplits(Kept(lines, answers, |lines|));
    }
  }

  /** The lines of the first `k` that the flush sends and drops. */
  function SentAt(lines: seq<string>, answers: nat -> Answer, k: nat): set<nat>
    requires k <= |lines|
  {
    set i: nat | i < k && !Blank(lines[i]) && (answers(i).Accepted? || answers(i).Redirected?)
  }

  function BlankAt(lines: seq<string>, k: nat): set<nat>
    requires k <= |lines|
  {
    set i: nat | i < k && Blank(lines[i])
  }

  lemma SentNext(lines: seq<string>, answers: nat -> Answer, k: nat)
    requires 0 < k <= |lines|
    ensures |SentAt(lines, answers, k)| == |SentAt(lines, answers, k - 1)| +
            if !Blank(lines[k-1]) && Passed(answers(k-1)) then 1 else 0
  {
    assert SentAt(lines, answers, k) == SentAt(lines, answers, k - 1) +
           if !Blank(lines[k-1]) && Passed(answers(k-1)) then {k - 1} else {};
  }

  lemma BlankNext(lines: seq<string>, k: nat)
    requires 0 < k <= |lines|
    ensures |BlankAt(lines, k)| == |BlankAt(lines, k - 1)| + if Blank(lines[k-1]) then 1 else 0
  {
    assert BlankAt(lines, k) == BlankAt(lines, k - 1) + if Blank(lines[k-1]) then {k - 1} else {};
  }

  lemma {:induction false} SentCounted(lines: seq<string>, answers: nat -> Answer, k: nat)
    requires k <= |lines|
    ensures SentCount(lines, answers, k) == |SentAt(lines, answers, k)|
  {
    if k == 0 {
      assert SentAt(lines, answers, 0) == {};
    } else {
      SentCounted(lines, answers, k - 1);
      SentNext(lines, answers, k);
    }
  }

  lemma {:induction false} RestCounted(lines: seq<string>, answers: nat -> Answer, k: nat)
    requires k <= |lines|
    ensures SentCount(lines, answers, k) + |Kept(lines, answers, k)| + |BlankAt(lines, k)| == k
  {
    if k == 0 {
      assert BlankAt(lines, 0) == {};
    } else {
      RestCounted(lines, answers, k - 1);
      BlankNext(lines, k);
    }
  }

  /** The count a flush returns is of the lines that passed; they, the lines left and the blank ones are all. */
  lemma SentKeptAndBlank(file: Option<string>, answers: nat -> Answer)
    ensures var lines := Queued(file);
            && SentCount(lines, answers, |lines|) == |SentAt(lines, answers, |lines|)|
            && |SentAt(lines, answers, |lines|)| + |Queued(Flushed(file, answers))| + |BlankAt(lines, |lines|)|
               == |lines|
  {
    FlushLeavesFailed(file, answers);
    SentCounted(Queued(file), answers, |Queued(file)|);
    RestCounted(Queued(file), answers, |Queued(file)|);
  }

  /** Line i was tried and its answer did not pass. */
  predicate FailedLine(lines: seq<string>, answers: nat -> Answer, i: nat)
    requires i < |lines|
  {
    !Blank(lines[i]) && (answers(i).Refused? || answers(i).NoAnswer?)
  }

  /** A failed line is kept, at the place that counts the lines kept before it. */
  lemma {:induction false} KeptInOrder(lines: seq<string>, answers: nat -> Answer, k: nat, i: nat)
    requires i < k <= |lines| && FailedLine(lines, answers, i)
    ensures |Kept(lines, answers, i)| + 1 == |Kept(lines, answers, i + 1)| <= |Kept(lines, answers, k)|
    ensures Kept(lines, answers, k)[|Kept(lines, answers, i)|] == lines[i]
    decreases k
  {
    if i < k - 1 {
      KeptInOrder(lines, answers, k - 1, i);
    }
  }

  /** And nothing else is: the j-th line kept is the failed line with j kept before it. */
  lemma {:induction false} OnlyFailedKept(lines: seq<string>, answers: nat -> Answer, k: nat, j: nat) returns (i: nat)
    requires k <= |lines| && j < |Kept(lines, answers, k)|
    ensures i < k && FailedLine(lines, answers, i) && |Kept(lines, answers, i)| == j
    ensures Kept(lines, answers, k)[j] == lines[i]
    decreases k
  {
    if j < |Kept(lines, answers, k - 1)| {
      i := OnlyFailedKept(lines, answers, k - 1, j);
    } else {
      i := k - 1;
    }
  }
}
