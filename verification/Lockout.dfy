/**
 The TOTP lockout: five failures in a sliding quarter of an hour. The stored
 list is pruned at every look; the history it stands for never is.
 */
module Lockout {
  import opened Options

  type User = string

  /** Fifteen minutes in microseconds, the resolution of the clock. */
  const WINDOW := 900_000_000
  const MAX_FAILURES := 5

  /** What checking the code itself comes to, once the gate is passed. */
  datatype Check = NoCode | NoSecret(optional: bool) | WrongCode | RightCode

  datatype Reply = LockedOut | Rejected(left: nat) | Granted

  function Pruned(stamps: seq<int>, now: int): seq<int> {
    if stamps == [] then []
    else Pruned(stamps[..|stamps|-1], now) + if now - stamps[|stamps|-1] < WINDOW then [stamps[|stamps|-1]] else []
  }

  function Left(count: nat): nat {
    if count >= MAX_FAILURES then 0 else MAX_FAILURES - count
  }

  /** A code is accepted when it is right, or when no secret is set up and none is required. */
  predicate Passes(check: Check) {
    check.RightCode? || (check.NoSecret? && check.optional)
  }

  /** One attempt's clock readings: at the gate, at the record, at the final count. */
  datatype Attempt = Attempt(gate: int, record: int, after: int, check: Check)

  predicate InOrder(a: Attempt) {
    a.gate <= a.record <= a.after
  }

  function ReplyTo(stored: seq<int>, a: Attempt): Reply {
    var kept := Pruned(stored, a.gate);
    if Left(|kept|) == 0 then LockedOut
    else if Passes(a.check) then Granted
    else Rejected(Left(|Pruned(kept + [a.record], a.after)|))
  }

  function StoredAfter(stored: seq<int>, a: Attempt): seq<int> {
    var kept := Pruned(stored, a.gate);
    if Left(|kept|) == 0 then kept
    else if a.check.RightCode? then []
    else if Passes(a.check) then kept
    else Pruned(kept + [a.record], a.after)
  }

  class TotpGuard {
    var failures: map<User, seq<int>>

    constructor ()
      ensures failures == map[]
    {
      failures := map[];
    }

    function StampsOf(user: User): seq<int>
      reads this
    {
      if user in failures then failures[user] else []
    }

    /** Everybody else's failures are as they were. */
    twostate predicate OthersKept(user: User)
      reads this
    {
      forall other | other != user :: StampsOf(other) == old(StampsOf(other))
    }

    method RemainingAttempts(user: User, now: int) returns (left: nat)
      modifies this
      ensures StampsOf(user) == Pruned(old(StampsOf(user)), now) && OthersKept(user)
      ensures var n := |Pruned(old(StampsOf(user)), now)|; left == if n >= 5 then 0 else 5 - n
    {
      var stamps := StampsOf(user);
      var kept: seq<int> := [];
      for i := 0 to |stamps|
        invariant kept == Pruned(stamps[..i], now) && failures == old(failures)
      {
        PrunedSnoc(stamps[..i], stamps[i], now);
        assert stamps[..i+1] == stamps[..i] + [stamps[i]];
        if now - stamps[i] < WINDOW {
          kept := kept + [stamps[i]];
        }
      }
      assert stamps[..|stamps|] == stamps;
      failures := failures[user := kept];
      left := if |kept| >= MAX_FAILURES then 0 else MAX_FAILURES - |kept|;
    }

    method RecordTotpFailure(user: User, now: int)
      modifies this
      ensures StampsOf(user) == old(StampsOf(user)) + [now] && OthersKept(user)
    {
      failures := failures[user := StampsOf(user) + [now]];
    }

    method ClearTotpFailures(user: User)
      modifies this
      ensures StampsOf(user) == [] && OthersKept(user)
    {
      failures := failures - {user};
    }

    /** None is the lockout exception. */
    method VerifyTotp(user: User, gate: int, check: Check) returns (ok: Option<bool>)
      modifies this
      ensures ok.None? <==> |Pruned(old(StampsOf(user)), gate)| >= 5
      ensures ok.Some? ==>
                match check
                case RightCode => ok.value
                case NoSecret(optional) => ok.value == optional
                case WrongCode => !ok.value
                case NoCode => !ok.value
      ensures StampsOf(user) == if ok.Some? && check.RightCode? then [] else Pruned(old(StampsOf(user)), gate)
      ensures OthersKept(user)
    {
      var left := RemainingAttempts(user, gate);
      if left == 0 {
        return None;
      }
      if check.RightCode? {
        ClearTotpFailures(user);
      }
      ok := Some(Passes(check));
    }

    /** The TOTP part of starting a sudo session. */
    method StartSudo(user: User, a: Attempt) returns (reply: Reply)
      modifies this
      ensures reply == ReplyTo(old(StampsOf(user)), a)
      ensures StampsOf(user) == StoredAfter(old(StampsOf(user)), a)
      ensures reply == LockedOut <==> |Pruned(old(StampsOf(user)), a.gate)| >= 5
      ensures reply == Granted <==> reply != LockedOut && a.check in {RightCode, NoSecret(true)}
      ensures reply.Rejected? <==> reply != LockedOut && a.check in {WrongCode, NoCode, NoSecret(false)}
      ensures var kept := Pruned(old(StampsOf(user)), a.gate);
              && (reply == LockedOut ==> StampsOf(user) == kept)
              && (reply == Granted ==> StampsOf(user) == if a.check == RightCode then [] else kept)
              && (reply.Rejected? ==> StampsOf(user) == Pruned(kept + [a.record], a.after))
      ensures reply.Rejected? ==> var n := |StampsOf(user)|; reply == Rejected(if n >= 5 then 0 else 5 - n)
      ensures OthersKept(user)
    {
      var ok := VerifyTotp(user, a.gate, a.check);
      if ok.None? {
        return LockedOut;
      }
      if ok.value {
        return Granted;
      }
      RecordTotpFailure(user, a.record);
      var left := RemainingAttempts(user, a.after);
      reply := Rejected(left);
    }
  }

  // ---- Serial runs ----

  /** Attempts one after the other under a clock that never goes back. */
  ghost predicate Serial(h: seq<Attempt>) {
    h == [] ||
    (var before, a := h[..|h|-1], h[|h|-1];
     Serial(before) && InOrder(a) && (before != [] ==> before[|before|-1].after <= a.gate))
  }

  function Stored(h: seq<Attempt>): seq<int> {
    if h == [] then [] else StoredAfter(Stored(h[..|h|-1]), h[|h|-1])
  }

  /** Every failure recorded since the last right code. */
  function Failures(h: seq<Attempt>): seq<int> {
    if h == [] then []
    else
      var before, a := h[..|h|-1], h[|h|-1];
      match ReplyTo(Stored(before), a)
      case LockedOut => Failures(before)
      case Granted => if a.check.RightCode? then [] else Failures(before)
      case Rejected(_) => Failures(before) + [a.record]
  }

  /** The clock when the stored list was last pruned. */
  function LastPrune(h: seq<Attempt>): int {
    if h == [] then 0
    else if ReplyTo(Stored(h[..|h|-1]), h[|h|-1]).Rejected? then h[|h|-1].after
    else h[|h|-1].gate
  }

  lemma PrunedSnoc(stamps: seq<int>, t: int, now: int)
    ensures Pruned(stamps + [t], now) == Pruned(stamps, now) + if now - t < WINDOW then [t] else []
  {
    assert (stamps + [t])[..|stamps|] == stamps;
  }

  lemma {:induction false} PruneTwice(stamps: seq<int>, earlier: int, later: int)
    requires earlier <= later
    ensures Pruned(Pruned(stamps, earlier), later) == Pruned(stamps, later)
    decreases |stamps|
  {
    if stamps != [] {
      var shorter, t := stamps[..|stamps|-1], stamps[|stamps|-1];
      PruneTwice(shorter, earlier, later);
      if earlier - t < WINDOW {
        PrunedSnoc(Pruned(shorter, earlier), t, later);
      } else {
        assert Pruned(stamps, earlier) == Pruned(shorter, earlier);
      }
    }
  }

  /** The stored list is the full history, pruned once: nothing that still counts was ever dropped. */
  lemma {:induction false} StoredIsPrunedHistory(h: seq<Attempt>)
    requires Serial(h)
    ensures h != [] ==> Stored(h) == Pruned(Failures(h), LastPrune(h)) && LastPrune(h) <= h[|h|-1].after
    ensures forall now | h != [] ==> LastPrune(h) <= now :: Pruned(Stored(h), now) == Pruned(Failures(h), now)
    decreases |h|
  {
    if h != [] {
      var before, a := h[..|h|-1], h[|h|-1];
      StoredIsPrunedHistory(before);
      var history := Failures(before);
      assert Pruned(Stored(before), a.gate) == Pruned(history, a.gate);
      if ReplyTo(Stored(before), a).Rejected? {
        var kept := Pruned(history, a.gate);
        PrunedSnoc(kept, a.record, a.after);
        PrunedSnoc(history, a.record, a.after);
        PruneTwice(history, a.gate, a.after);
      }
      forall now | LastPrune(h) <= now ensures Pruned(Stored(h), now) == Pruned(Failures(h), now) {
        PruneTwice(Failures(h), LastPrune(h), now);
      }
    }
  }

  ghost predicate Sorted(stamps: seq<int>) {
    forall i, j | 0 <= i < j < |stamps| :: stamps[i] <= stamps[j]
  }

  lemma {:induction false} FailuresSorted(h: seq<Attempt>)
    requires Serial(h)
    ensures Sorted(Failures(h))
    ensures forall t | t in Failures(h) :: h != [] && t <= h[|h|-1].after
    decreases |h|
  {
    if h != [] {
      var before, a := h[..|h|-1], h[|h|-1];
      FailuresSorted(before);
      if ReplyTo(Stored(before), a).Rejected? {
        SortedSnoc(Failures(before), a.record);
      }
    }
  }

  lemma OneMoreStamp(stamps: seq<int>, last: int, t: int)
    ensures multiset(stamps + [last])[t] == multiset(stamps)[t] + if last == t then 1 else 0
  {
  }

  /** What `stamps` keeps: as often as it is there, each stamp less than fifteen minutes old, and no other. */
  lemma {:induction false} PrunedExactly(stamps: seq<int>, now: int, t: int)
    ensures multiset(Pruned(stamps, now))[t] == if now - t < 900_000_000 then multiset(stamps)[t] else 0
    decreases |stamps|
  {
    if stamps != [] {
      var shorter, last := stamps[..|stamps|-1], stamps[|stamps|-1];
      PrunedExactly(shorter, now, t);
      OneMoreStamp(shorter, last, t);
      OneMoreStamp(Pruned(shorter, now), last, t);
      assert stamps == shorter + [last];
    }
  }

  lemma PrunedWithin(stamps: seq<int>, now: int, t: int)
    requires t in Pruned(stamps, now)
    ensures t in stamps
  {
    PrunedExactly(stamps, now, t);
    assert t in multiset(Pruned(stamps, now));
    assert t in multiset(stamps);
  }

  /** And in the order they were in. */
  lemma {:induction false} PrunedSorted(stamps: seq<int>, now: int)
    requires Sorted(stamps)
    ensures Sorted(Pruned(stamps, now))
    decreases |stamps|
  {
    if stamps != [] {
      var shorter, last := stamps[..|stamps|-1], stamps[|stamps|-1];
      PrunedSorted(shorter, now);
      forall s | s in Pruned(shorter, now) ensures s <= last {
        PrunedWithin(shorter, now, s);
      }
      SortedSnoc(Pruned(shorter, now), last);
    }
  }

  lemma SortedSnoc(stamps: seq<int>, t: int)
    requires Sorted(stamps) && forall s | s in stamps :: s <= t
    ensures Sorted(stamps + [t])
  {
    forall i, j | 0 <= i < j < |stamps| + 1 ensures (stamps + [t])[i] <= (stamps + [t])[j] {
      assert stamps[i] in stamps;
    }
  }

  /** In a sorted history, if the k-th failure from the end still counts, so do the later ones. */
  lemma {:induction false} RecentCount(stamps: seq<int>, now: int, k: nat)
    requires Sorted(stamps) && 0 < k <= |stamps| && now - stamps[|stamps|-k] < WINDOW
    ensures |Pruned(stamps, now)| >= k
    decreases |stamps|
  {
    var last := |stamps| - 1;
    assert now - stamps[last] < WINDOW;
    if k > 1 {
      RecentCount(stamps[..last], now, k - 1);
    }
  }

  lemma RecentCountExact(stamps: seq<int>, now: int)
    requires Sorted(stamps)
    ensures |Pruned(stamps, now)| >= MAX_FAILURES <==>
            |stamps| >= MAX_FAILURES && now - stamps[|stamps|-MAX_FAILURES] < WINDOW
  {
    if |stamps| >= MAX_FAILURES && now - stamps[|stamps|-MAX_FAILURES] < WINDOW {
      RecentCount(stamps, now, MAX_FAILURES);
    } else {
      OldOnesDrop(stamps, now, if |stamps| < MAX_FAILURES then 0 else |stamps| - MAX_FAILURES + 1);
    }
  }

  /** At most the last |stamps| - n count when everything before position n is out of the window. */
  lemma {:induction false} OldOnesDrop(stamps: seq<int>, now: int, n: nat)
    requires Sorted(stamps) && n <= |stamps| && (n > 0 ==> now - stamps[n-1] >= WINDOW)
    ensures |Pruned(stamps, now)| <= |stamps| - n
    decreases |stamps|
  {
    if stamps != [] {
      var last := |stamps| - 1;
      if n == |stamps| {
        if last > 0 {
          assert stamps[last-1] <= stamps[last];
        }
        AllOldDrop(stamps, now);
      } else {
        OldOnesDrop(stamps[..last], now, n);
      }
    }
  }

  lemma {:induction false} AllOldDrop(stamps: seq<int>, now: int)
    requires Sorted(stamps) && (stamps != [] ==> now - stamps[|stamps|-1] >= WINDOW)
    ensures Pruned(stamps, now) == []
    decreases |stamps|
  {
    if stamps != [] {
      if |stamps| > 1 {
        assert stamps[|stamps|-2] <= stamps[|stamps|-1];
      }
      AllOldDrop(stamps[..|stamps|-1], now);
    }
  }

  lemma SerialSnoc(h: seq<Attempt>, a: Attempt)
    requires Serial(h + [a])
    ensures Serial(h) && InOrder(a) && (h != [] ==> h[|h|-1].after <= a.gate)
  {
    assert (h + [a])[..|h|] == h;
  }

  /** What the gate counts is what the whole history says, whatever was pruned before. */
  lemma GateCountsHistory(h: seq<Attempt>, a: Attempt)
    requires Serial(h + [a])
    ensures Pruned(Stored(h), a.gate) == Pruned(Failures(h), a.gate)
  {
    SerialSnoc(h, a);
    StoredIsPrunedHistory(h);
  }

  lemma LockedByCount(stored: seq<int>, a: Attempt)
    ensures ReplyTo(stored, a) == LockedOut <==> |Pruned(stored, a.gate)| >= MAX_FAILURES
  {
  }

  lemma LockedBy(stored: seq<int>, failures: seq<int>, a: Attempt)
    requires Sorted(failures) && Pruned(stored, a.gate) == Pruned(failures, a.gate)
    ensures ReplyTo(stored, a) == LockedOut <==>
            |failures| >= MAX_FAILURES && a.gate - failures[|failures|-MAX_FAILURES] < WINDOW
  {
    LockedByCount(stored, a);
    RecentCountExact(failures, a.gate);
  }

  /** The stamps of the attempts that brought no acceptable code, each let in by the gate, since the last right one. */
  function WrongSinceRight(h: seq<Attempt>): seq<int> {
    if h == [] then []
    else
      var earlier, a := WrongSinceRight(h[..|h|-1]), h[|h|-1];
      if |earlier| >= 5 && a.gate - earlier[|earlier|-5] < 900_000_000 then earlier
      else if a.check == RightCode then []
      else if a.check == NoSecret(true) then earlier
      else earlier + [a.record]
  }

  /**
   The failures are just those: judged by the codes and the failures before them alone, with
   neither the stored list nor its pruning.
   */
  lemma {:induction false} FailuresAreWrongCodes(h: seq<Attempt>)
    requires Serial(h)
    ensures Failures(h) == WrongSinceRight(h)
    decreases |h|
  {
    if h != [] {
      assert h == h[..|h|-1] + [h[|h|-1]];
      FailuresAreWrongCodes(h[..|h|-1]);
      OneMoreAttempt(h[..|h|-1], h[|h|-1]);
    }
  }

  lemma WrongNext(before: seq<Attempt>, a: Attempt)
    ensures WrongSinceRight(before + [a]) ==
            var earlier := WrongSinceRight(before);
            if |earlier| >= 5 && a.gate - earlier[|earlier|-5] < 900_000_000 then earlier
            else if a.check == RightCode then []
            else if a.check == NoSecret(true) then earlier
            else earlier + [a.record]
  {
    assert (before + [a])[..|before|] == before;
  }

  lemma OneMoreAttempt(before: seq<Attempt>, a: Attempt)
    requires Serial(before + [a]) && Failures(before) == WrongSinceRight(before)
    ensures Failures(before + [a]) == WrongSinceRight(before + [a])
  {
    LockedExactly(before, a);
    FailuresNext(before, a);
    WrongNext(before, a);
  }

  /** The gate refuses exactly when five failures since the last right code lie in the last fifteen minutes. */
  lemma LockedExactly(h: seq<Attempt>, a: Attempt)
    requires Serial(h + [a])
    ensures ReplyTo(Stored(h), a) == LockedOut <==>
            |Failures(h)| >= MAX_FAILURES && a.gate - Failures(h)[|Failures(h)|-MAX_FAILURES] < WINDOW
  {
    GateCountsHistory(h, a);
    SerialSnoc(h, a);
    FailuresSorted(h);
    LockedBy(Stored(h), Failures(h), a);
  }

  /** A new failure gets past the gate only fifteen minutes after the fifth one before it. */
  lemma NewFailureSpans(h: seq<Attempt>, a: Attempt)
    requires Serial(h + [a]) && ReplyTo(Stored(h), a).Rejected? && |Failures(h)| >= MAX_FAILURES
    ensures a.record - Failures(h)[|Failures(h)|-MAX_FAILURES] >= WINDOW
  {
    LockedExactly(h, a);
    SerialSnoc(h, a);
  }

  ghost predicate Spans(failures: seq<int>, i: nat) {
    i + MAX_FAILURES < |failures| ==> failures[i + MAX_FAILURES] - failures[i] >= WINDOW
  }

  lemma SpansNext(h: seq<Attempt>, a: Attempt, i: nat)
    requires Serial(h + [a]) && Spans(Failures(h), i)
    ensures Spans(Failures(h + [a]), i)
  {
    FailuresNext(h, a);
    if ReplyTo(Stored(h), a).Rejected? && |Failures(h)| >= MAX_FAILURES {
      NewFailureSpans(h, a);
    }
  }

  lemma {:induction false} AlwaysSpans(h: seq<Attempt>, i: nat)
    requires Serial(h)
    ensures Spans(Failures(h), i)
    decreases |h|
  {
    if h != [] {
      assert h == h[..|h|-1] + [h[|h|-1]];
      AlwaysSpans(h[..|h|-1], i);
      SpansNext(h[..|h|-1], h[|h|-1], i);
    }
  }

  /** Any six failures with no right code between them span at least fifteen minutes. */
  lemma SixFailuresSpanTheWindow(h: seq<Attempt>, i: nat)
    requires Serial(h) && i + MAX_FAILURES < |Failures(h)|
    ensures Failures(h)[i + MAX_FAILURES] - Failures(h)[i] >= WINDOW
  {
    AlwaysSpans(h, i);
  }

  lemma FailuresNext(before: seq<Attempt>, a: Attempt)
    ensures Failures(before + [a]) ==
            match ReplyTo(Stored(before), a) {
              case LockedOut => Failures(before)
              case Granted => if a.check.RightCode? then [] else Failures(before)
              case Rejected(_) => Failures(before) + [a.record]
            }
  {
    assert (before + [a])[..|before|] == before;
  }
}
