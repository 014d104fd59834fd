/**
 The copilot quota within one month: checked before the answer, counted after it, with a notice
 when the count passes 80 and 90 percent of the limit. Percentages are exact. The check and the
 count go by the plan in effect, the notices by the plan as stored. A counter that
 cannot be read reads as zero, and a notice is not repeated while a delivery of it is on record.
 */
module Quota {
  type ChatId = nat

  const UNLIMITED := -1
  const THRESHOLDS := [80, 90]

  predicate Admits(limit: int, used: nat) {
    limit == UNLIMITED || used < limit
  }

  /** What reading the counter gives: zero when the read fails. */
  function Seen(used: nat, readable: bool): nat {
    if readable then used else 0
  }

  /** The counter as the metadata reports it: 0 on an unlimited plan. */
  function QuotaUsed(limit: int, seen: nat): nat {
    if limit == UNLIMITED then 0 else seen
  }

  /** The count reaches `threshold` percent of the limit with this increase. */
  predicate Crosses(limit: int, prev: nat, now: nat, threshold: int) {
    limit > 0 && prev * 100 < threshold * limit <= now * 100
  }

  /** A notice goes out for a threshold that is crossed, has no delivery on record, and finds somebody to tell. */
  function Notices(limit: int, prev: nat, now: nat, logged: set<int>, told: set<int>, i: nat): seq<int>
    requires i <= |THRESHOLDS|
  {
    if i == 0 then []
    else
      Notices(limit, prev, now, logged, told, i - 1)
      + if Crosses(limit, prev, now, THRESHOLDS[i-1]) && THRESHOLDS[i-1] !in logged && THRESHOLDS[i-1] in told
        then [THRESHOLDS[i-1]] else []
  }

  lemma NoticesAre(limit: int, prev: nat, now: nat, logged: set<int>, told: set<int>)
    ensures Notices(limit, prev, now, logged, told, |THRESHOLDS|)
         == (if Crosses(limit, prev, now, 80) && 80 !in logged && 80 in told then [80] else [])
            + if Crosses(limit, prev, now, 90) && 90 !in logged && 90 in told then [90] else []
  {
    assert Notices(limit, prev, now, logged, told, 0) == [];
    assert THRESHOLDS[0] == 80 && THRESHOLDS[1] == 90;
  }

  class CopilotQuota {
    /** The limit of the plan in effect, and that of the stored plan. */
    const limit: int
    const noticeLimit: int
    var used: nat
    var mails: seq<int>
    /** The thresholds with a delivery in the last 31 days. */
    var logged: set<int>

    constructor (limit: int, noticeLimit: int, logged: set<int>)
      ensures this.limit == limit && this.noticeLimit == noticeLimit
      ensures used == 0 && mails == [] && this.logged == logged
    {
      this.limit, this.noticeLimit, used, mails, this.logged := limit, noticeLimit, 0, [], logged;
    }

    method RequireCopilotQuota(readable: bool) returns (admitted: bool)
      ensures admitted <==> Admits(limit, Seen(used, readable))
      ensures admitted <==> limit == -1 || (if readable then used else 0) < limit
    {
      if limit == UNLIMITED {
        return true;
      }
      var current := if readable then used else 0;
      admitted := !(current >= limit);
    }

    method SendThreshold(threshold: int, told: set<int>)
      modifies `mails, `logged
      ensures threshold !in old(logged) && threshold in told ==>
                mails == old(mails) + [threshold] && logged == old(logged) + {threshold}
      ensures threshold in old(logged) || threshold !in told ==> mails == old(mails) && logged == old(logged)
    {
      if threshold in logged {
        return;
      }
      if threshold in told {
        mails, logged := mails + [threshold], logged + {threshold};
      }
    }

    method MaybeNotifyThreshold(prev: nat, now: nat, told: set<int>)
      modifies `mails, `logged
      ensures mails == old(mails) + Notices(noticeLimit, prev, now, old(logged), told, |THRESHOLDS|)
      ensures forall t :: t in logged <==>
                t in old(logged) || t in Notices(noticeLimit, prev, now, old(logged), told, |THRESHOLDS|)
      ensures var crossed := set t | t in {80, 90} && noticeLimit > 0 && prev * 100 < t * noticeLimit <= now * 100;
              && mails == old(mails) + (if 80 in crossed * told - old(logged) then [80] else [])
                                     + (if 90 in crossed * told - old(logged) then [90] else [])
              && logged == old(logged) + crossed * told
    {
      NoticesAre(noticeLimit, prev, now, logged, told);
      if noticeLimit <= 0 {
        return;
      }
      for i := 0 to |THRESHOLDS|
        invariant mails == old(mails) + Notices(noticeLimit, prev, now, old(logged), told, i)
        invariant forall t :: t in logged <==>
                    t in old(logged) || t in Notices(noticeLimit, prev, now, old(logged), told, i)
      {
        if prev * 100 < THRESHOLDS[i] * noticeLimit <= now * 100 {
          SendThreshold(THRESHOLDS[i], told);
        }
      }
    }

    /** A chat nobody runs beside: `counted` when the answer succeeds and the counter's update works. */
    method Chat(readable: bool, counted: bool, told: set<int>) returns (admitted: bool)
      modifies this
      ensures admitted <==> Admits(limit, Seen(old(used), readable))
      ensures admitted <==> limit == -1 || (if readable then old(used) else 0) < limit
      ensures readable && 0 <= old(used) <= limit ==> used <= limit
      ensures used == old(used) + if admitted && counted then 1 else 0
      ensures mails == old(mails) + if admitted && counted
                                    then var prev := QuotaUsed(limit, Seen(old(used), readable));
                                         Notices(noticeLimit, prev, prev + 1, old(logged), told, |THRESHOLDS|)
                                    else []
      ensures admitted && counted ==>
                var prev := if limit == -1 || !readable then 0 else old(used);
                var crossed := set t | t in {80, 90} && noticeLimit > 0
                                       && prev * 100 < t * noticeLimit <= (prev + 1) * 100;
                && mails == old(mails) + (if 80 in crossed * told - old(logged) then [80] else [])
                                       + (if 90 in crossed * told - old(logged) then [90] else [])
                && logged == old(logged) + crossed * told
      ensures !(admitted && counted) ==> mails == old(mails) && logged == old(logged)
    {
      admitted := RequireCopilotQuota(readable);
      if admitted {
        var prev := if limit == UNLIMITED || !readable then 0 else used;
        if counted {
          used := used + 1;
          MaybeNotifyThreshold(prev, prev + 1, told);
        }
      }
    }
  }

  // ---- Many chats at once ----

  /**
   A chat that passed the check, before and after it read the counter for its notices; then,
   counted, about to handle threshold `i`, before and after looking for a delivery of it.
   */
  datatype Flight = Checked | Ready(prev: nat) | Telling(prev: nat, i: nat) | Sending(prev: nat, i: nat)

  type Flights = map<ChatId, Flight>

  datatype State = State(used: nat, flights: Flights, mails: seq<int>, logged: set<int>)

  datatype Event =
    | Check(id: ChatId, ok: bool)
    | Meta(id: ChatId, ok: bool)
    | Answer(id: ChatId, counted: bool)
    | Look(id: ChatId)
    | Send(id: ChatId, told: bool)
    | Land(id: ChatId)
    | Die(id: ChatId)

  /**
   The limit of the plan in effect and that of the plan the notices go by; whether the
   counter can always be read; whether each notice finds somebody to tell and no counted
   chat dies before it; and the thresholds delivered in the 31 days before.
   */
  datatype Setting = Setting(limit: int, noticeLimit: int, readable: bool, telling: bool, recent: set<int>)

  predicate Enabled(g: Setting, s: State, e: Event) {
    match e
    case Check(id, ok) => id !in s.flights && (g.readable ==> ok)
    case Meta(id, ok) => id in s.flights && s.flights[id].Checked? && (g.readable ==> ok)
    case Answer(id, _) => id in s.flights && s.flights[id].Ready?
    case Look(id) => id in s.flights && s.flights[id].Telling? && s.flights[id].i < |THRESHOLDS|
    case Send(id, told) =>
      id in s.flights && s.flights[id].Sending? && s.flights[id].i < |THRESHOLDS| && (g.telling ==> told)
    case Land(id) => id in s.flights && s.flights[id].Telling? && s.flights[id].i >= |THRESHOLDS|
    case Die(id) => id in s.flights && (g.telling ==> s.flights[id].Checked? || s.flights[id].Ready?)
  }

  function Looked(limit: int, f: Flight, logged: set<int>): Flight
    requires f.Telling? && f.i < |THRESHOLDS|
  {
    if Crosses(limit, f.prev, f.prev + 1, THRESHOLDS[f.i]) && THRESHOLDS[f.i] !in logged
    then Sending(f.prev, f.i) else Telling(f.prev, f.i + 1)
  }

  /** One step; what is not enabled changes nothing. */
  function Exec(g: Setting, s: State, e: Event): State {
    if !Enabled(g, s, e) then s
    else
      match e
      case Check(id, ok) =>
        if Admits(g.limit, Seen(s.used, ok)) then s.(flights := s.flights[id := Checked]) else s
      case Meta(id, ok) => s.(flights := s.flights[id := Ready(QuotaUsed(g.limit, Seen(s.used, ok)))])
      case Answer(id, counted) =>
        if counted then s.(used := s.used + 1, flights := s.flights[id := Telling(s.flights[id].prev, 0)])
        else s.(flights := s.flights - {id})
      case Look(id) => s.(flights := s.flights[id := Looked(g.noticeLimit, s.flights[id], s.logged)])
      case Send(id, told) =>
        var f := s.flights[id];
        var next := s.(flights := s.flights[id := Telling(f.prev, f.i + 1)]);
        if told then next.(mails := s.mails + [THRESHOLDS[f.i]], logged := s.logged + {THRESHOLDS[f.i]}) else next
      case Land(id) => s.(flights := s.flights - {id})
      case Die(id) => s.(flights := s.flights - {id})
  }

  /** Where a month gets to from a fresh counter. */
  function After(g: Setting, es: seq<Event>): State {
    if es == [] then State(0, map[], [], g.recent) else Exec(g, After(g, es[..|es|-1]), es[|es|-1])
  }

  /** The chats between their check and their count. */
  function Waiting(flights: Flights): set<ChatId> {
    set id | id in flights && (flights[id].Checked? || flights[id].Ready?)
  }

  /** Never more than `c` chats between their check and their count. */
  predicate Within(g: Setting, c: nat, es: seq<Event>) {
    |Waiting(After(g, es).flights)| <= c && (es == [] || Within(g, c, es[..|es|-1]))
  }

  /** Never more than `c` chats under way at all. */
  predicate Busy(g: Setting, c: nat, es: seq<Event>) {
    |After(g, es).flights| <= c && (es == [] || Busy(g, c, es[..|es|-1]))
  }

  lemma AfterSnoc(g: Setting, c: nat, es: seq<Event>, e: Event)
    ensures After(g, es + [e]) == Exec(g, After(g, es), e)
    ensures Within(g, c, es + [e]) <==> Within(g, c, es) && |Waiting(After(g, es + [e]).flights)| <= c
    ensures Busy(g, c, es + [e]) <==> Busy(g, c, es) && |After(g, es + [e]).flights| <= c
  {
    assert (es + [e])[..|es|] == es;
  }

  lemma {:induction false} BusyMore(g: Setting, c: nat, d: nat, es: seq<Event>)
    requires Busy(g, c, es) && c <= d
    ensures Busy(g, d, es)
    decreases |es|
  {
    if es != [] {
      BusyMore(g, c, d, es[..|es|-1]);
    }
  }

  // ---- The limit ----

  lemma WaitingAfter(g: Setting, s: State, e: Event)
    ensures var w, w' := Waiting(s.flights), Waiting(Exec(g, s, e).flights);
            if !Enabled(g, s, e) then w' == w
            else if e.Check? then w' == if Admits(g.limit, Seen(s.used, e.ok)) then w + {e.id} else w
            else if e.Answer? then w' == w - {e.id} && e.id in w
            else if e.Die? then w' == w - {e.id}
            else w' == w
  {
  }

  lemma StepBound(g: Setting, c: nat, s: State, e: Event)
    requires g.limit >= 0 && g.readable
    requires s.used + |Waiting(s.flights)| <= g.limit + c - 1 && |Waiting(Exec(g, s, e).flights)| <= c
    ensures Exec(g, s, e).used + |Waiting(Exec(g, s, e).flights)| <= g.limit + c - 1
  {
    WaitingAfter(g, s, e);
  }

  /** With a readable counter a finite limit is never passed by more than the chats waiting at once, less one. */
  lemma {:induction false} NeverFarBeyond(g: Setting, c: nat, es: seq<Event>)
    requires Within(g, c, es) && g.limit >= 0 && g.readable && c >= 1
    ensures After(g, es).used + |Waiting(After(g, es).flights)| <= g.limit + c - 1
    decreases |es|
  {
    if es != [] {
      NeverFarBeyond(g, c, es[..|es|-1]);
      StepBound(g, c, After(g, es[..|es|-1]), es[|es|-1]);
    }
  }

  // ---- Building runs ----

  lemma FlightsCounted(m: Flights, id: ChatId, f: Flight)
    ensures |m[id := f]| == |m| + if id in m then 0 else 1
    ensures |m - {id}| == |m| - if id in m then 1 else 0
    ensures id !in m ==> m[id := f] - {id} == m
  {
    assert m[id := f].Keys == m.Keys + {id};
    assert (m - {id}).Keys == m.Keys - {id};
    assert |m.Keys| == |m| && |m[id := f].Keys| == |m[id := f]| && |(m - {id}).Keys| == |m - {id}|;
  }

  lemma FewWaiting(flights: Flights)
    ensures |Waiting(flights)| <= |flights|
  {
    assert flights.Keys == Waiting(flights) + (flights.Keys - Waiting(flights));
    assert |flights.Keys| == |flights|;
  }

  lemma {:induction false} BusyIsWithin(g: Setting, c: nat, es: seq<Event>)
    requires Busy(g, c, es)
    ensures Within(g, c, es)
    decreases |es|
  {
    FewWaiting(After(g, es).flights);
    if es != [] {
      BusyIsWithin(g, c, es[..|es|-1]);
    }
  }

  /** A chat passes the check and reads the count, both reads giving what `ok` lets them. */
  lemma Admit(g: Setting, c: nat, es: seq<Event>, id: ChatId, ok: bool) returns (es': seq<Event>)
    requires Busy(g, c, es) && |After(g, es).flights| < c && id !in After(g, es).flights && (g.readable ==> ok)
    requires g.limit > 0 && Seen(After(g, es).used, ok) < g.limit
    ensures Busy(g, c, es')
    ensures var s := After(g, es); After(g, es') == s.(flights := s.flights[id := Ready(Seen(s.used, ok))])
  {
    var s := After(g, es);
    AfterSnoc(g, c, es, Check(id, ok));
    AfterSnoc(g, c, es + [Check(id, ok)], Meta(id, ok));
    FlightsCounted(s.flights, id, Checked);
    FlightsCounted(s.flights, id, Ready(Seen(s.used, ok)));
    assert s.flights[id := Checked][id := Ready(Seen(s.used, ok))] == s.flights[id := Ready(Seen(s.used, ok))];
    es' := es + [Check(id, ok)] + [Meta(id, ok)];
  }

  /** A step that keeps a chat under way. */
  lemma StepOn(g: Setting, c: nat, es: seq<Event>, e: Event, f: Flight)
    requires Busy(g, c, es) && e.id in After(g, es).flights
    requires Exec(g, After(g, es), e).flights == After(g, es).flights[e.id := f]
    ensures Busy(g, c, es + [e]) && After(g, es + [e]) == Exec(g, After(g, es), e)
  {
    AfterSnoc(g, c, es, e);
    FlightsCounted(After(g, es).flights, e.id, f);
  }

  function Count(mails: seq<int>, threshold: int): nat {
    if mails == [] then 0
    else Count(mails[..|mails|-1], threshold) + if mails[|mails|-1] == threshold then 1 else 0
  }

  lemma CountSnoc(mails: seq<int>, t: int, threshold: int)
    ensures Count(mails + [t], threshold) == Count(mails, threshold) + if t == threshold then 1 else 0
  {
    assert (mails + [t])[..|mails|] == mails;
  }

  /** A counted chat handles its thresholds from `i` on and lands. */
  lemma {:induction false} Finish(g: Setting, c: nat, es: seq<Event>, id: ChatId, prev: nat, i: nat, t: int)
    returns (es': seq<Event>)
    requires Busy(g, c, es) && id in After(g, es).flights && i <= |THRESHOLDS|
    requires After(g, es).flights[id] == Telling(prev, i)
    ensures Busy(g, c, es')
    ensures var s, s' := After(g, es), After(g, es');
            && s'.flights == s.flights - {id} && s'.used == s.used
            && Count(s'.mails, t) >= Count(s.mails, t)
            && (!Crosses(g.noticeLimit, prev, prev + 1, t) ==> Count(s'.mails, t) == Count(s.mails, t))
    decreases |THRESHOLDS| - i
  {
    var s := After(g, es);
    if i == |THRESHOLDS| {
      AfterSnoc(g, c, es, Land(id));
      FlightsCounted(s.flights, id, Checked);
      es' := es + [Land(id)];
    } else {
      var f := Looked(g.noticeLimit, s.flights[id], s.logged);
      StepOn(g, c, es, Look(id), f);
      es' := es + [Look(id)];
      assert s.flights[id := f] - {id} == s.flights - {id};
      if f.Sending? {
        es' := SendOne(g, c, es', id, prev, i, t);
      }
      es' := Finish(g, c, es', id, prev, i + 1, t);
    }
  }

  lemma SendOne(g: Setting, c: nat, es: seq<Event>, id: ChatId, prev: nat, i: nat, t: int) returns (es': seq<Event>)
    requires Busy(g, c, es) && id in After(g, es).flights && i < |THRESHOLDS|
    requires After(g, es).flights[id] == Sending(prev, i)
    ensures es' == es + [Send(id, true)] && Busy(g, c, es')
    ensures var s := After(g, es);
            After(g, es') == State(s.used, s.flights[id := Telling(prev, i + 1)],
                                   s.mails + [THRESHOLDS[i]], s.logged + {THRESHOLDS[i]})
    ensures Count(After(g, es').mails, t) == Count(After(g, es).mails, t) + if t == THRESHOLDS[i] then 1 else 0
  {
    StepOn(g, c, es, Send(id, true), Telling(prev, i + 1));
    CountSnoc(After(g, es).mails, THRESHOLDS[i], t);
    es' := es + [Send(id, true)];
  }

  /** A chat that has read the count is counted. */
  lemma CountOne(g: Setting, c: nat, es: seq<Event>, id: ChatId) returns (es': seq<Event>)
    requires Busy(g, c, es) && id in After(g, es).flights && After(g, es).flights[id].Ready?
    ensures Busy(g, c, es')
    ensures var s := After(g, es);
            After(g, es') == s.(used := s.used + 1, flights := s.flights[id := Telling(s.flights[id].prev, 0)])
  {
    StepOn(g, c, es, Answer(id, true), Telling(After(g, es).flights[id].prev, 0));
    es' := es + [Answer(id, true)];
  }

  /** One whole chat with nobody beside it, the reads giving what `ok` lets them. */
  lemma OneChat(g: Setting, es: seq<Event>, ok: bool, t: int) returns (es': seq<Event>)
    requires Busy(g, 1, es) && After(g, es).flights == map[] && (g.readable ==> ok)
    requires g.limit > 0 && Seen(After(g, es).used, ok) < g.limit
    ensures Busy(g, 1, es') && After(g, es').flights == map[] && After(g, es').used == After(g, es).used + 1
    ensures var prev := Seen(After(g, es).used, ok);
            !Crosses(g.noticeLimit, prev, prev + 1, t) ==> Count(After(g, es').mails, t) == Count(After(g, es).mails, t)
  {
    var s := After(g, es);
    es' := Admit(g, 1, es, 0, ok);
    es' := CountOne(g, 1, es', 0);
    es' := Finish(g, 1, es', 0, Seen(s.used, ok), 0, t);
    assert After(g, es').flights == map[];
  }

  /** One chat after another up to `used`: below the limit, or anywhere when reads may fail. */
  lemma {:induction false} Alone(g: Setting, used: nat) returns (es: seq<Event>)
    requires g.limit > 0 && (g.readable ==> used <= g.limit)
    ensures Busy(g, 1, es) && After(g, es).used == used && After(g, es).flights == map[]
    decreases used
  {
    if used == 0 {
      es := [];
    } else {
      es := Alone(g, used - 1);
      es := OneChat(g, es, g.readable, 80);
    }
  }

  // ---- The bound is reached, and needs the counter to be readable ----

  function Ids(lo: nat, hi: nat): (ids: set<ChatId>)
    requires lo <= hi
    ensures |ids| == hi - lo && forall id :: id in ids <==> lo <= id < hi
    decreases hi - lo
  {
    if lo == hi then {} else {lo} + Ids(lo + 1, hi)
  }

  /** The chats from `lo` up to `c` have passed the check on the last free call. */
  lemma {:induction false} Together(g: Setting, c: nat, lo: nat) returns (es: seq<Event>)
    requires g.limit > 0 && lo <= c && c >= 1
    ensures Busy(g, c, es) && After(g, es).used == g.limit - 1
    ensures After(g, es).flights.Keys == Ids(lo, c)
    ensures forall id | id in After(g, es).flights :: After(g, es).flights[id].Ready?
    decreases c - lo
  {
    if lo == c {
      es := Alone(g, g.limit - 1);
      BusyMore(g, 1, c, es);
    } else {
      es := Together(g, c, lo + 1);
      assert |After(g, es).flights.Keys| == |After(g, es).flights|;
      es := Admit(g, c, es, lo, true);
      assert Ids(lo, c) == Ids(lo + 1, c) + {lo};
    }
  }

  /** And the first `k` of them are counted. */
  lemma {:induction false} AllCounted(g: Setting, c: nat, k: nat) returns (es: seq<Event>)
    requires g.limit > 0 && k <= c && c >= 1
    ensures Busy(g, c, es) && After(g, es).used == g.limit - 1 + k && After(g, es).flights.Keys == Ids(0, c)
    ensures forall id | k <= id < c :: After(g, es).flights[id].Ready?
    decreases k
  {
    if k == 0 {
      es := Together(g, c, 0);
    } else {
      es := AllCounted(g, c, k - 1);
      var flights := After(g, es).flights;
      assert k - 1 in Ids(0, c);
      es := CountOne(g, c, es, k - 1);
      assert After(g, es).flights.Keys == flights.Keys + {k - 1};
    }
  }

  /**
   For every positive limit and every `c`: a month can end `c - 1` calls over the limit, and
   goes no further in any run if and only if the counter can always be read.
   */
  lemma BoundIsExact(g: Setting, c: nat)
    requires g.limit > 0 && c >= 1
    ensures exists es :: Within(g, c, es) && After(g, es).used == g.limit + c - 1
    ensures g.readable <==> forall es | Within(g, c, es) :: After(g, es).used <= g.limit + c - 1
  {
    var reached := AllCounted(g, c, c);
    BusyIsWithin(g, c, reached);
    if g.readable {
      forall es | Within(g, c, es) ensures After(g, es).used <= g.limit + c - 1 {
        NeverFarBeyond(g, c, es);
      }
    } else {
      var es := Alone(g, g.limit + c);
      BusyMore(g, 1, c, es);
      BusyIsWithin(g, c, es);
    }
  }

  // ---- The notices ----

  /** The chat has been counted and has yet to handle threshold number `x`. */
  predicate Behind(f: Flight, x: nat) {
    (f.Telling? || f.Sending?) && f.i <= x
  }

  /** Count `n` has reached its share of the limit. */
  predicate Reaches(limit: int, n: int, t: int) {
    limit > 0 && n * 100 >= t * limit
  }

  /** The threshold was mailed once if count `n` has reached its share and it was not delivered shortly before. */
  predicate MailedFor(g: Setting, mails: seq<int>, logged: set<int>, t: int, n: int) {
    && Count(mails, t) == (if t !in g.recent && Reaches(g.noticeLimit, n, t) then 1 else 0)
    && (t in logged <==> t in g.recent || Count(mails, t) == 1)
  }

  /** A chat under way has the count right. */
  predicate Current(limit: int, used: nat, logged: set<int>, f: Flight) {
    match f
    case Checked => true
    case Ready(prev) => prev == used
    case Telling(prev, i) => prev + 1 == used && i <= |THRESHOLDS|
    case Sending(prev, i) =>
      prev + 1 == used && i < |THRESHOLDS| && Crosses(limit, prev, prev + 1, THRESHOLDS[i]) && THRESHOLDS[i] !in logged
  }

  /** What is known of threshold number `x` while one chat is under way. */
  predicate NoticedBy(g: Setting, used: nat, mails: seq<int>, logged: set<int>, f: Flight, x: nat)
    requires x < |THRESHOLDS|
  {
    && Current(g.noticeLimit, used, logged, f)
    && MailedFor(g, mails, logged, THRESHOLDS[x], if Behind(f, x) then used - 1 else used)
  }

  lemma LookNoticed(g: Setting, used: nat, mails: seq<int>, logged: set<int>, f: Flight, x: nat)
    requires x < |THRESHOLDS| && NoticedBy(g, used, mails, logged, f, x) && f.Telling? && f.i < |THRESHOLDS|
    ensures NoticedBy(g, used, mails, logged, Looked(g.noticeLimit, f, logged), x)
  {
  }

  lemma SendNoticed(g: Setting, used: nat, mails: seq<int>, logged: set<int>, f: Flight, x: nat)
    requires x < |THRESHOLDS| && NoticedBy(g, used, mails, logged, f, x) && f.Sending?
    ensures var t := THRESHOLDS[f.i];
            NoticedBy(g, used, mails + [t], logged + {t}, Telling(f.prev, f.i + 1), x)
  {
    CountSnoc(mails, THRESHOLDS[f.i], THRESHOLDS[x]);
  }

  ghost predicate Noticed(g: Setting, s: State, x: nat)
    requires x < |THRESHOLDS|
  {
    && (forall id | id in s.flights :: NoticedBy(g, s.used, s.mails, s.logged, s.flights[id], x))
    && (s.flights == map[] ==> MailedFor(g, s.mails, s.logged, THRESHOLDS[x], s.used))
  }

  lemma OnlyFlight(m: Flights, id: ChatId)
    requires id in m && |m| <= 1
    ensures m - {id} == map[] && forall other | other in m :: other == id
  {
    FlightsCounted(m, id, Checked);
    assert |m - {id}| == 0;
    forall other | other in m ensures other == id {
      assert other != id ==> other in m - {id};
    }
  }

  /** The chat under way moves on. */
  lemma FlightStep(g: Setting, s: State, e: Event, x: nat)
    requires g.limit >= 0 && g.readable && g.telling && x < |THRESHOLDS| && |s.flights| <= 1
    requires Enabled(g, s, e) && !e.Check? && Noticed(g, s, x)
    ensures Noticed(g, Exec(g, s, e), x)
  {
    OnlyFlight(s.flights, e.id);
    var f := s.flights[e.id];
    assert NoticedBy(g, s.used, s.mails, s.logged, f, x);
    match e
    case Look(_) => LookNoticed(g, s.used, s.mails, s.logged, f, x);
    case Send(_, _) => SendNoticed(g, s.used, s.mails, s.logged, f, x);
    case _ =>
  }

  lemma NoticedStep(g: Setting, s: State, e: Event, x: nat)
    requires g.limit >= 0 && g.readable && g.telling && x < |THRESHOLDS|
    requires |s.flights| <= 1 && |Exec(g, s, e).flights| <= 1 && Noticed(g, s, x)
    ensures Noticed(g, Exec(g, s, e), x)
  {
    if Enabled(g, s, e) {
      if e.Check? {
        FlightsCounted(s.flights, e.id, Checked);
        assert Exec(g, s, e) == s || |s.flights| == 0;
      } else {
        FlightStep(g, s, e, x);
      }
    }
  }

  lemma {:induction false} NoticedOnce(g: Setting, es: seq<Event>, x: nat)
    requires Busy(g, 1, es) && g.limit >= 0 && g.readable && g.telling && x < |THRESHOLDS|
    ensures Noticed(g, After(g, es), x)
    decreases |es|
  {
    if es != [] {
      NoticedOnce(g, es[..|es|-1], x);
      NoticedStep(g, After(g, es[..|es|-1]), es[|es|-1], x);
    }
  }

  /**
   With no chat under way: each notice was sent once if the count has reached its share of the
   limit in effect and no delivery of it was on record from before, and else not.
   */
  ghost predicate Exact(g: Setting, s: State) {
    s.flights == map[] ==> forall t | t in THRESHOLDS ::
      Count(s.mails, t) == if t !in g.recent && Reaches(g.limit, s.used, t) then 1 else 0
  }

  /** Two chats that both read the count `prev` and both count. */
  lemma BothCounted(g: Setting, es: seq<Event>, prev: nat) returns (es': seq<Event>)
    requires Busy(g, 2, es) && After(g, es).flights == map[] && After(g, es).used == prev < g.limit
    ensures Busy(g, 2, es')
    ensures After(g, es')
         == After(g, es).(used := prev + 2, flights := map[0 := Telling(prev, 0), 1 := Telling(prev, 0)])
  {
    es' := Admit(g, 2, es, 0, true);
    es' := Admit(g, 2, es', 1, true);
    assert After(g, es').flights == map[0 := Ready(prev), 1 := Ready(prev)];
    es' := CountOne(g, 2, es', 0);
    es' := CountOne(g, 2, es', 1);
  }

  /** And both look for a delivery before either sends. */
  lemma BothSending(g: Setting, es: seq<Event>, prev: nat) returns (es': seq<Event>)
    requires Busy(g, 2, es) && After(g, es).flights == map[0 := Telling(prev, 0), 1 := Telling(prev, 0)]
    requires Crosses(g.noticeLimit, prev, prev + 1, 80) && 80 !in After(g, es).logged
    ensures Busy(g, 2, es')
    ensures After(g, es') == After(g, es).(flights := map[0 := Sending(prev, 0), 1 := Sending(prev, 0)])
  {
    StepOn(g, 2, es, Look(0), Sending(prev, 0));
    es' := es + [Look(0)];
    StepOn(g, 2, es', Look(1), Sending(prev, 0));
    es' := es' + [Look(1)];
  }

  /** Both send the notice and land. */
  lemma BothSend(g: Setting, es: seq<Event>, prev: nat) returns (es': seq<Event>)
    requires Busy(g, 2, es) && After(g, es).flights == map[0 := Sending(prev, 0), 1 := Sending(prev, 0)]
    ensures Busy(g, 2, es') && After(g, es').flights == map[]
    ensures Count(After(g, es').mails, 80) >= Count(After(g, es).mails, 80) + 2
  {
    es' := SendOne(g, 2, es, 0, prev, 0, 80);
    es' := SendOne(g, 2, es', 1, prev, 0, 80);
    es' := Finish(g, 2, es', 0, prev, 1, 80);
    es' := Finish(g, 2, es', 1, prev, 1, 80);
    assert After(g, es').flights == map[];
  }

  /** The least count that reaches `t` percent of the limit. */
  function Share(limit: int, t: int): int {
    (t * limit + 99) / 100
  }

  lemma ShareReached(limit: int, t: int, n: nat)
    requires t in THRESHOLDS
    ensures limit > 0 ==> (Reaches(limit, n, t) <==> n >= Share(limit, t)) && 1 <= Share(limit, t) <= limit
    ensures limit <= 0 ==> Share(limit, t) <= 0
  {
  }

  /** Two chats at once on the last count below 80 percent of the notices' limit send that notice twice. */
  lemma RepeatsNotice(g: Setting) returns (es: seq<Event>)
    requires g.limit > 0 && g.noticeLimit > 0 && Share(g.noticeLimit, 80) <= g.limit
    requires g.readable && g.telling && 80 !in g.recent
    ensures Busy(g, 2, es) && After(g, es).flights == map[] && Count(After(g, es).mails, 80) >= 2
  {
    var prev := Share(g.noticeLimit, 80) - 1;
    assert Crosses(g.noticeLimit, prev, prev + 1, 80) && prev < g.limit;
    es := Alone(g, prev);
    NoticedOnce(g, es, 0);
    BusyMore(g, 1, 2, es);
    es := BothCounted(g, es, prev);
    es := BothSending(g, es, prev);
    es := BothSend(g, es, prev);
  }

  /** Both limits give the same count for each threshold that has no delivery on record. */
  predicate SameShares(g: Setting) {
    forall t | t in THRESHOLDS :: t in g.recent || Share(g.noticeLimit, t) == Share(g.limit, t)
  }

  function Index(t: int): (x: nat)
    requires t in THRESHOLDS
    ensures x < |THRESHOLDS| && THRESHOLDS[x] == t
  {
    if t == 80 then 0 else 1
  }

  /** One chat at a time, what was mailed for `t` goes by the notices' limit. */
  lemma MailedAlone(g: Setting, es: seq<Event>, t: int)
    requires Busy(g, 1, es) && g.limit >= 0 && g.readable && g.telling && t in THRESHOLDS
    requires After(g, es).flights == map[]
    ensures Count(After(g, es).mails, t)
         == if t !in g.recent && Reaches(g.noticeLimit, After(g, es).used, t) then 1 else 0
  {
    NoticedOnce(g, es, Index(t));
  }

  lemma NeverBeyondAlone(g: Setting, es: seq<Event>)
    requires Busy(g, 1, es) && g.limit >= 0 && g.readable
    ensures After(g, es).used <= g.limit
  {
    BusyIsWithin(g, 1, es);
    NeverFarBeyond(g, 1, es);
  }

  lemma ExactAlone(g: Setting, es: seq<Event>)
    requires Busy(g, 1, es) && g.limit > 0 && g.readable && g.telling && SameShares(g)
    ensures Exact(g, After(g, es))
  {
    var s := After(g, es);
    forall t | t in THRESHOLDS && s.flights == map[]
      ensures Count(s.mails, t) == if t !in g.recent && Reaches(g.limit, s.used, t) then 1 else 0
    {
      MailedAlone(g, es, t);
      ShareReached(g.limit, t, s.used);
      ShareReached(g.noticeLimit, t, s.used);
    }
  }

  /** Where the two limits differ for a threshold, one chat at a time up to the lesser share is mailed wrongly. */
  lemma SharesDiffer(g: Setting) returns (es: seq<Event>)
    requires g.limit > 0 && g.readable && g.telling && !SameShares(g)
    ensures Busy(g, 1, es) && !Exact(g, After(g, es))
  {
    var t :| t in THRESHOLDS && t !in g.recent && Share(g.noticeLimit, t) != Share(g.limit, t);
    var mine, theirs := Share(g.limit, t), Share(g.noticeLimit, t);
    ShareReached(g.limit, t, 0);
    ShareReached(g.noticeLimit, t, 0);
    var used := if 0 < theirs < mine then theirs else mine;
    es := Alone(g, used);
    MailedAlone(g, es, t);
    ShareReached(g.limit, t, used);
    ShareReached(g.noticeLimit, t, used);
  }

  /**
   For every positive limit in effect: the notices are exact in all runs with up to `c` chats at
   once if and only if there are no chats, or there is one at a time and both limits give the same
   80 and 90 percent counts.
   */
  lemma ExactIffAlone(g: Setting, c: nat)
    requires g.limit > 0 && g.readable && g.telling && 80 !in g.recent
    ensures c == 0 || (c == 1 && SameShares(g)) <==> forall es | Busy(g, c, es) :: Exact(g, After(g, es))
  {
    if c == 0 {
      forall es | Busy(g, c, es) ensures Exact(g, After(g, es)) {
        NothingHappens(g, es);
      }
    } else if c == 1 && SameShares(g) {
      forall es | Busy(g, c, es) ensures Exact(g, After(g, es)) {
        ExactAlone(g, es);
      }
    } else if !SameShares(g) {
      var es := SharesDiffer(g);
      BusyMore(g, 1, c, es);
    } else {
      ShareReached(g.limit, 80, 0);
      ShareReached(g.noticeLimit, 80, 0);
      var es := RepeatsNotice(g);
      BusyMore(g, 2, c, es);
    }
  }

  /** With no chat ever under way the month stays as it began. */
  lemma {:induction false} NothingHappens(g: Setting, es: seq<Event>)
    requires Busy(g, 0, es)
    ensures After(g, es) == State(0, map[], [], g.recent)
    decreases |es|
  {
    if es != [] {
      NothingHappens(g, es[..|es|-1]);
      FlightsCounted(map[], es[|es|-1].id, Checked);
    }
  }

  /** On the plan table the condition is that both plans are the same. */
  lemma PlansAgree(g: Setting)
    requires g.limit in {10, 400, 800} && g.noticeLimit in {10, 400, 800} && 80 !in g.recent
    ensures SameShares(g) <==> g.limit == g.noticeLimit
  {
    assert 80 in THRESHOLDS;
    assert Share(10, 80) == 8 && Share(400, 80) == 320 && Share(800, 80) == 640;
  }

  /**
   A cancelled tenant, held to 10 calls while a paid plan is stored: the quota is used up,
   one chat at a time, with no notice.
   */
  lemma CancelledGetsNoNotice() returns (es: seq<Event>)
    ensures var g := Setting(10, 400, true, true, {});
            && Busy(g, 1, es) && After(g, es).used == 10 && !Admits(10, After(g, es).used)
            && Count(After(g, es).mails, 80) == 0 && Count(After(g, es).mails, 90) == 0
  {
    var g := Setting(10, 400, true, true, {});
    es := Alone(g, 10);
    MailedAlone(g, es, 80);
    MailedAlone(g, es, 90);
  }

  /** Two chats that both read the count `prev` and both count, one threshold aside. */
  lemma BothPass(g: Setting, es: seq<Event>, prev: nat, t: int) returns (es': seq<Event>)
    requires Busy(g, 2, es) && After(g, es).flights == map[] && After(g, es).used == prev < g.limit
    requires !Crosses(g.noticeLimit, prev, prev + 1, t)
    ensures Busy(g, 2, es') && After(g, es').flights == map[] && After(g, es').used == prev + 2
    ensures Count(After(g, es').mails, t) == Count(After(g, es).mails, t)
  {
    es' := BothCounted(g, es, prev);
    es' := Finish(g, 2, es', 0, prev, 0, t);
    es' := Finish(g, 2, es', 1, prev, 0, t);
    assert After(g, es').flights == map[];
  }

  /** On any plan with a limit above one, two chats at once can also pass 90 percent with no notice of it. */
  lemma MissesNotice(g: Setting) returns (es: seq<Event>)
    requires g.limit == g.noticeLimit > 1 && g.readable && g.telling
    ensures Busy(g, 2, es) && After(g, es).flights == map[] && After(g, es).used * 100 >= 90 * g.limit
    ensures Count(After(g, es).mails, 90) == 0
  {
    var prev := (90 * g.limit + 99) / 100 - 2;
    es := Alone(g, prev);
    NoticedOnce(g, es, 1);
    BusyMore(g, 1, 2, es);
    es := BothPass(g, es, prev, 90);
  }

  /** A counter that cannot be read: the limit used up, one chat at a time, and no mail. */
  lemma UnreadableMissesNotices(g: Setting, used: nat) returns (es: seq<Event>)
    requires g.limit > 0 && g.noticeLimit != 1 && !g.readable && used >= g.limit
    ensures Busy(g, 1, es) && After(g, es).flights == map[] && After(g, es).used == used
    ensures Count(After(g, es).mails, 80) == 0
  {
    es := BlindChats(g, used);
  }

  lemma {:induction false} BlindChats(g: Setting, used: nat) returns (es: seq<Event>)
    requires g.limit > 0 && g.noticeLimit != 1 && !g.readable
    ensures Busy(g, 1, es) && After(g, es).flights == map[] && After(g, es).used == used
    ensures Count(After(g, es).mails, 80) == 0
    decreases used
  {
    if used == 0 {
      es := [];
    } else {
      es := BlindChats(g, used - 1);
      assert !Crosses(g.noticeLimit, 0, 1, 80);
      es := OneChat(g, es, false, 80);
    }
  }

  // ---- The method is the protocol's uninterrupted run ----

  /** Events `es`, each enabled where it happens, take state `s` to `s'`. */
  ghost predicate Leads(g: Setting, s: State, es: seq<Event>, s': State)
    decreases |es|
  {
    if es == [] then s == s' else Enabled(g, s, es[0]) && Leads(g, Exec(g, s, es[0]), es[1..], s')
  }

  lemma LeadsCons(g: Setting, s: State, e: Event, es: seq<Event>, s': State)
    requires Enabled(g, s, e) && Leads(g, Exec(g, s, e), es, s')
    ensures Leads(g, s, [e] + es, s')
  {
    assert ([e] + es)[1..] == es;
  }

  /** Threshold number `i` alone: what looking and sending come to. */
  function Told(limit: int, s: State, id: ChatId, prev: nat, i: nat, told: set<int>): State
    requires i < |THRESHOLDS|
  {
    var t, next := THRESHOLDS[i], s.(flights := s.flights[id := Telling(prev, i + 1)]);
    if Crosses(limit, prev, prev + 1, t) && t !in s.logged && t in told
    then next.(mails := s.mails + [t], logged := s.logged + {t}) else next
  }

  lemma SoloThreshold(g: Setting, s: State, id: ChatId, prev: nat, i: nat, told: set<int>, rest: seq<Event>, s': State)
    returns (es: seq<Event>)
    requires id in s.flights && s.flights[id] == Telling(prev, i) && i < |THRESHOLDS|
    requires g.telling ==> THRESHOLDS[i] in told
    requires Leads(g, Told(g.noticeLimit, s, id, prev, i, told), rest, s')
    ensures Leads(g, s, es, s')
  {
    var looked := Exec(g, s, Look(id));
    es := rest;
    if looked.flights[id].Sending? {
      assert s.flights[id := Sending(prev, i)][id := Telling(prev, i + 1)] == s.flights[id := Telling(prev, i + 1)];
      es := [Send(id, THRESHOLDS[i] in told)] + es;
      LeadsCons(g, looked, Send(id, THRESHOLDS[i] in told), rest, s');
    }
    LeadsCons(g, s, Look(id), es, s');
    es := [Look(id)] + es;
  }

  /** Both thresholds and the end. */
  lemma SoloNotices(g: Setting, s: State, id: ChatId, prev: nat, told: set<int>) returns (es: seq<Event>, s': State)
    requires id in s.flights && s.flights[id] == Telling(prev, 0) && (g.telling ==> {80, 90} <= told)
    ensures Leads(g, s, es, s') && s'.used == s.used && s'.flights == s.flights - {id}
    ensures s'.mails == s.mails + Notices(g.noticeLimit, prev, prev + 1, s.logged, told, |THRESHOLDS|)
    ensures forall t :: t in s'.logged <==>
              t in s.logged || t in Notices(g.noticeLimit, prev, prev + 1, s.logged, told, |THRESHOLDS|)
  {
    var s1 := Told(g.noticeLimit, s, id, prev, 0, told);
    var s2 := Told(g.noticeLimit, s1, id, prev, 1, told);
    NoticesAre(g.noticeLimit, prev, prev + 1, s.logged, told);
    s' := s2.(flights := s2.flights - {id});
    assert s2.flights - {id} == s.flights - {id};
    assert Leads(g, s', [], s');
    LeadsCons(g, s2, Land(id), [], s');
    es := SoloThreshold(g, s1, id, prev, 1, told, [Land(id)] + [], s');
    es := SoloThreshold(g, s, id, prev, 0, told, es, s');
  }

  /** From the count on. */
  lemma SoloAnswer(g: Setting, s: State, id: ChatId, prev: nat, counted: bool, told: set<int>)
    returns (es: seq<Event>, s': State)
    requires id in s.flights && s.flights[id] == Ready(prev) && (g.telling ==> {80, 90} <= told)
    ensures Leads(g, s, es, s') && s'.flights == s.flights - {id} && s'.used == s.used + if counted then 1 else 0
    ensures var sent := if counted then Notices(g.noticeLimit, prev, prev + 1, s.logged, told, |THRESHOLDS|) else [];
            s'.mails == s.mails + sent && forall t :: t in s'.logged <==> t in s.logged || t in sent
  {
    var s1 := Exec(g, s, Answer(id, counted));
    var rest := [];
    s' := s1;
    if counted {
      rest, s' := SoloNotices(g, s1, id, prev, told);
      assert s1.flights - {id} == s.flights - {id};
    }
    LeadsCons(g, s, Answer(id, counted), rest, s');
    es := [Answer(id, counted)] + rest;
  }

  /** What CopilotQuota.Chat is proved to do is what the steps do with nobody interleaving. */
  lemma ChatIsASoloRun(g: Setting, s: State, id: ChatId, readable: bool, counted: bool, told: set<int>)
    returns (es: seq<Event>, s': State)
    requires id !in s.flights && (g.readable ==> readable) && (g.telling ==> {80, 90} <= told)
    ensures Leads(g, s, es, s') && s'.flights == s.flights
    ensures var happens := Admits(g.limit, Seen(s.used, readable)) && counted;
            var prev := QuotaUsed(g.limit, Seen(s.used, readable));
            var sent := if happens then Notices(g.noticeLimit, prev, prev + 1, s.logged, told, |THRESHOLDS|) else [];
            && s'.used == s.used + (if happens then 1 else 0) && s'.mails == s.mails + sent
            && forall t :: t in s'.logged <==> t in s.logged || t in sent
  {
    var s1 := Exec(g, s, Check(id, readable));
    if !Admits(g.limit, Seen(s.used, readable)) {
      es, s' := [Check(id, readable)] + [], s;
      assert Leads(g, s1, [], s);
      LeadsCons(g, s, Check(id, readable), [], s);
    } else {
      var s2 := Exec(g, s1, Meta(id, readable));
      var prev := QuotaUsed(g.limit, Seen(s.used, readable));
      es, s' := SoloAnswer(g, s2, id, prev, counted, told);
      assert s2.flights - {id} == s.flights;
      LeadsCons(g, s1, Meta(id, readable), es, s');
      LeadsCons(g, s, Check(id, readable), [Meta(id, readable)] + es, s');
      es := [Check(id, readable)] + ([Meta(id, readable)] + es);
    }
  }
}
