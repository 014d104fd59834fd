/**
 The dunning worker over one past-due episode: reminders at days 3, 7 and 14 and
 the downgrade at day 14. A cycle may die between any two of its writes. The sent
 log may fail as well: a lookup or an insert that raises is swallowed.
 */
module Dunning {
  import opened Induction
  import opened Options

  type TenantId = nat

  /** Microseconds in a day. */
  const DAY := 86_400_000_000
  const OFFSETS := [3, 7, 14]

  /**
   One tenant's billing state. `log` holds the offsets logged for this episode,
   `events` those with an email event, which do not name the episode. `mails` lists
   the offsets of the reminders sent, `notices` counts the downgrade notices.
   */
  datatype Book = Book(
    free: bool,
    pastDue: bool,
    since: Option<int>,
    log: set<int>,
    events: set<int>,
    mails: seq<int>,
    notices: nat)

  /**
   How the sent log serves one tenant in one cycle: the offsets whose insert works, those whose
   lookup works, and whether the lookup and the insert of the downgrade notice do.
   */
  datatype SentLog = SentLog(inserts: set<int>, lookups: set<int>, noticeLookup: bool, noticeInsert: bool)

  /** The whole days gone by. */
  function DaysSince(since: int, now: int): (days: int)
    ensures since + days * 86_400_000_000 <= now < since + (days + 1) * 86_400_000_000
  {
    (now - since) / DAY
  }

  /** A lookup that fails falls back to the events. */
  predicate AlreadySent(b: Book, offset: int, readable: bool) {
    (readable && offset in b.log) || offset in b.events
  }

  predicate Due(b: Book, day: int, offset: int, l: SentLog) {
    day >= offset && !AlreadySent(b, offset, offset in l.lookups)
  }

  /** The writes for one offset, log then mail then event, of which the first `w` happen. */
  function Handled(b: Book, day: int, offset: int, l: SentLog, w: nat): Book {
    if Due(b, day, offset, l)
    then b.(log := if offset in l.inserts && w >= 1 then b.log + {offset} else b.log,
            mails := if w >= 2 then b.mails + [offset] else b.mails,
            events := if w >= 3 then b.events + {offset} else b.events)
    else b
  }

  /** The writes left for the rest of the cycle. */
  function Left(b: Book, day: int, offset: int, l: SentLog, w: nat): nat {
    if !Due(b, day, offset, l) then w else if w < 3 then 0 else w - 3
  }

  /** The notice below the downgrade: log, mail, event, of which the first `w` happen. */
  function Noticed(b: Book, l: SentLog, w: nat): Book {
    if AlreadySent(b, 14, l.noticeLookup) then b
    else b.(log := if l.noticeInsert && w >= 1 then b.log + {14} else b.log,
            notices := if w >= 2 then b.notices + 1 else b.notices,
            events := if w >= 3 then b.events + {14} else b.events)
  }

  function Downgraded(b: Book, day: int, l: SentLog, w: nat): Book {
    if day >= 14 && !b.free && w >= 1 then Noticed(b.(free := true, pastDue := false), l, w - 1) else b
  }

  /** What is left of a tenant's cycle from the `i`-th offset on, the downgrade last, cut off after `w` writes. */
  function Rest(b: Book, day: int, l: SentLog, w: nat, i: nat): Book
    requires i <= |OFFSETS|
    decreases |OFFSETS| - i
  {
    if i == |OFFSETS| then Downgraded(b, day, l, w)
    else Rest(Handled(b, day, OFFSETS[i], l, w), day, l, Left(b, day, OFFSETS[i], l, w), i + 1)
  }

  /** Enough writes for any cycle: a notice is never due behind a reminder for day 14. */
  const WRITES := 10

  predicate Selected(b: Book, hasEmail: bool) {
    b.pastDue && b.since.Some? && hasEmail
  }

  /** One tenant's cycle, cut off after `w` writes. */
  function CycleOf(b: Book, now: int, hasEmail: bool, l: SentLog, w: nat): Book {
    if Selected(b, hasEmail) then Rest(b, DaysSince(b.since.value, now), l, w, 0) else b
  }

  lemma HandledInFull(b: Book, day: int, offset: int, l: SentLog, w: nat)
    requires w >= 3
    ensures Handled(b, day, offset, l, w) == Handled(b, day, offset, l, 3)
    ensures Left(b, day, offset, l, w) == if Due(b, day, offset, l) then w - 3 else w
    ensures Due(b, day, offset, l) ==> offset in Handled(b, day, offset, l, w).events
  {
  }

  class DunningWorker {
    var books: map<TenantId, Book>

    constructor (books: map<TenantId, Book>)
      ensures this.books == books
    {
      this.books := books;
    }

    /** The inner loop's body: log the offset, mail it, add the event. */
    method Remind(id: TenantId, day: int, offset: int, l: SentLog)
      requires id in books
      modifies this
      ensures books == old(books)[id := Handled(old(books)[id], day, offset, l, 3)]
    {
      var b := books[id];
      if day >= offset && !AlreadySent(b, offset, offset in l.lookups) {
        if offset in l.inserts {
          b := b.(log := b.log + {offset});
        }
        b := b.(mails := b.mails + [offset]);
        b := b.(events := b.events + {offset});
      }
      books := books[id := b];
    }

    /** The downgrade and its notice. */
    method Downgrade(id: TenantId, l: SentLog)
      requires id in books
      modifies this
      ensures books == old(books)[id := Noticed(old(books)[id].(free := true, pastDue := false), l, 3)]
    {
      var b := books[id].(free := true, pastDue := false);
      if !AlreadySent(b, 14, l.noticeLookup) {
        if l.noticeInsert {
          b := b.(log := b.log + {14});
        }
        b := b.(notices := b.notices + 1);
        b := b.(events := b.events + {14});
      }
      books := books[id := b];
    }

    /** The inner loop and the downgrade, for one selected tenant. */
    method RunTenant(id: TenantId, day: int, l: SentLog)
      requires id in books
      modifies this
      ensures books == old(books)[id := Rest(old(books)[id], day, l, WRITES, 0)]
    {
      ghost var b0, w := books[id], WRITES;
      for i := 0 to |OFFSETS|
        invariant id in books && books == old(books)[id := books[id]]
        invariant w + 3 * i >= WRITES
        invariant i == 3 && 14 !in books[id].events ==> day < 14 || w >= 4
        invariant Rest(books[id], day, l, w, i) == Rest(b0, day, l, WRITES, 0)
      {
        HandledInFull(books[id], day, OFFSETS[i], l, w);
        w := Left(books[id], day, OFFSETS[i], l, w);
        Remind(id, day, OFFSETS[i], l);
      }
      if day >= 14 && !books[id].free {
        Downgrade(id, l);
      }
    }

    /** One cycle over the tenants the query returned, nobody dying. */
    method RunDunningCycle(tenants: seq<TenantId>, now: int, emails: set<TenantId>, log: TenantId -> SentLog)
      requires forall i, j | 0 <= i < j < |tenants| :: tenants[i] != tenants[j]
      requires forall id :: id in tenants <==> id in books && books[id].pastDue
      modifies this
      ensures books.Keys == old(books).Keys
      ensures forall id | id in books :: books[id] == CycleOf(old(books)[id], now, id in emails, log(id), WRITES)
      ensures forall id, o | id in books && o in {3, 7, 14} ::
                OnTheClock(old(books)[id], books[id], now, id in emails, log(id), o)
    {
      for i := 0 to |tenants|
        invariant books.Keys == old(books).Keys
        invariant forall id | id in books :: books[id] ==
                    if id in tenants[..i] then CycleOf(old(books)[id], now, id in emails, log(id), WRITES)
                    else old(books)[id]
      {
        var id := tenants[i];
        assert id in tenants;
        assert id !in tenants[..i];
        assert tenants[..i+1] == tenants[..i] + [id];
        var since := books[id].since;
        if since.Some? && id in emails {
          RunTenant(id, DaysSince(since.value, now), log(id));
        }
      }
      assert tenants[..|tenants|] == tenants;
      forall id, o | id in books && o in {3, 7, 14}
        ensures OnTheClock(old(books)[id], books[id], now, id in emails, log(id), o)
      {
        WholeCycle(old(books)[id], Cycle(now, id in emails, log(id), WRITES), o);
      }
    }
  }

  // ---- Whole episodes, with crashes ----

  /** One cycle: when, whether an admin email resolves, how the log serves, how many writes it got to. */
  datatype Cycle = Cycle(now: int, hasEmail: bool, log: SentLog, writes: nat)

  predicate Whole(c: Cycle) {
    c.writes >= WRITES
  }

  function After(b: Book, c: Cycle): Book {
    CycleOf(b, c.now, c.hasEmail, c.log, c.writes)
  }

  /** The book after the first `n` cycles. */
  function At(b0: Book, cycles: seq<Cycle>, n: nat): Book
    requires n <= |cycles|
  {
    if n == 0 then b0 else After(At(b0, cycles, n - 1), cycles[n-1])
  }

  /** The start of an episode: nothing logged or mailed for it; events may be left over from earlier ones. */
  predicate Begun(b: Book) {
    b.pastDue && b.since.Some? && b.log == {} && b.mails == [] && !b.free && b.notices == 0
  }

  function Count(mails: seq<int>, offset: int): nat {
    if mails == [] then 0
    else Count(mails[..|mails|-1], offset)
         + if mails[|mails|-1] == offset then 1 else 0
  }

  lemma CountSnoc(mails: seq<int>, m: int, offset: int)
    ensures Count(mails + [m], offset) == Count(mails, offset) + if m == offset then 1 else 0
  {
    assert (mails + [m])[..|mails|] == mails;
  }

  // ---- What one cycle does to the record of one offset ----

  predicate Untouched(b: Book, b': Book, o: int) {
    && Count(b'.mails, o) == Count(b.mails, o)
    && (o in b'.log <==> o in b.log)
    && (o in b'.events <==> o in b.events)
  }

  /**
   The first `w` of the three writes for `o`, if it is due. Otherwise nothing, except that the
   notice may add the event of an offset that is logged.
   */
  predicate Stepped(b: Book, b': Book, day: int, o: int, l: SentLog, w: nat) {
    if Due(b, day, o, l)
    then && Count(b'.mails, o) == Count(b.mails, o) + (if w >= 2 then 1 else 0)
         && (w < 3 ==> (o in b'.log <==> o in b.log || (o in l.inserts && w >= 1)))
         && (o in b'.events <==> w >= 3)
         && (o in l.inserts && w >= 1 ==> o in b'.log)
    else && Count(b'.mails, o) == Count(b.mails, o)
         && (o in b.log ==> o in b'.log)
         && (o in b.events ==> o in b'.events)
         && (o in b'.events && o !in b.events ==> day >= o && o in b.log)
         && (o in b'.log && o !in b.log ==> o in b.events)
  }

  lemma HandledOwn(b: Book, day: int, o: int, l: SentLog, w: nat)
    ensures Stepped(b, Handled(b, day, o, l, w), day, o, l, w)
    ensures !Due(b, day, o, l) ==> Handled(b, day, o, l, w) == b
    ensures Due(b, day, o, l) && w < 3 ==> Left(b, day, o, l, w) == 0
  {
    CountSnoc(b.mails, o, o);
  }

  lemma HandledOther(b: Book, day: int, offset: int, l: SentLog, w: nat, o: int)
    requires o != offset
    ensures Untouched(b, Handled(b, day, offset, l, w), o)
  {
    CountSnoc(b.mails, offset, o);
  }

  /** The offsets behind `i` and the downgrade touch `o` at most by the notice. */
  lemma {:induction false} RestOther(b: Book, day: int, l: SentLog, w: nat, i: nat, o: int)
    requires i <= |OFFSETS| && o !in OFFSETS[i..]
    ensures var r := Rest(b, day, l, w, i);
            && Count(r.mails, o) == Count(b.mails, o)
            && (Untouched(b, r, o) || (o == 14 && day >= 14 && o !in b.events))
            && (o in b.log ==> o in r.log)
            && (w == 0 ==> r == b)
    decreases |OFFSETS| - i
  {
    if i < |OFFSETS| {
      var b', w' := Handled(b, day, OFFSETS[i], l, w), Left(b, day, OFFSETS[i], l, w);
      HandledOther(b, day, OFFSETS[i], l, w, o);
      RestOther(b', day, l, w', i + 1, o);
    }
  }

  /** Each offset gets its own three writes, or as many as the cycle lives to make. */
  lemma {:induction false} RestSteps(b: Book, day: int, l: SentLog, w: nat, i: nat, o: int) returns (k: nat)
    requires i <= |OFFSETS| && o in OFFSETS[i..]
    ensures Stepped(b, Rest(b, day, l, w, i), day, o, l, k)
    ensures w + 3 * i >= WRITES ==> k >= 3
    decreases |OFFSETS| - i
  {
    var b', w' := Handled(b, day, OFFSETS[i], l, w), Left(b, day, OFFSETS[i], l, w);
    if o == OFFSETS[i] {
      k := w;
      OwnSteps(b, day, l, w, i);
    } else {
      HandledOther(b, day, OFFSETS[i], l, w, o);
      k := RestSteps(b', day, l, w', i + 1, o);
      SteppedBehind(b, b', Rest(b', day, l, w', i + 1), day, o, l, k);
    }
  }

  /** The offset's own writes are made, and what is behind them leaves it alone. */
  lemma OwnSteps(b: Book, day: int, l: SentLog, w: nat, i: nat)
    requires i < |OFFSETS|
    ensures Stepped(b, Rest(b, day, l, w, i), day, OFFSETS[i], l, w)
  {
    HandledOwn(b, day, OFFSETS[i], l, w);
    RestOther(Handled(b, day, OFFSETS[i], l, w), day, l, Left(b, day, OFFSETS[i], l, w), i + 1, OFFSETS[i]);
  }

  lemma SteppedBehind(b: Book, b': Book, r: Book, day: int, o: int, l: SentLog, k: nat)
    requires Untouched(b, b', o) && Stepped(b', r, day, o, l, k)
    ensures Stepped(b, r, day, o, l, k)
  {
  }

  /** The episode keeps its start, and the downgrade comes at day 14. */
  lemma {:induction false} RestFrame(b: Book, day: int, l: SentLog, w: nat, i: nat)
    requires i <= |OFFSETS|
    ensures var r := Rest(b, day, l, w, i);
            && r.since == b.since
            && (if r.free == b.free then r.pastDue == b.pastDue && r.notices == b.notices
                else day >= 14 && r.free && !r.pastDue && r.notices <= b.notices + 1)
            && (w + 3 * i >= WRITES && day >= 14 ==> r.free)
    decreases |OFFSETS| - i
  {
    if i < |OFFSETS| {
      var b', w' := Handled(b, day, OFFSETS[i], l, w), Left(b, day, OFFSETS[i], l, w);
      RestFrame(b', day, l, w', i + 1);
    }
  }

  lemma CycleSteps(b: Book, c: Cycle, o: int) returns (k: nat)
    requires Selected(b, c.hasEmail) && o in OFFSETS
    ensures Stepped(b, After(b, c), DaysSince(b.since.value, c.now), o, c.log, k)
    ensures Whole(c) ==> k >= 3
  {
    k := RestSteps(b, DaysSince(b.since.value, c.now), c.log, c.writes, 0, o);
  }

  lemma CycleFrame(b: Book, c: Cycle)
    ensures var r := After(b, c);
            && r.since == b.since
            && (if r.free == b.free then r.pastDue == b.pastDue && r.notices == b.notices
                else Selected(b, c.hasEmail) && DaysSince(b.since.value, c.now) >= 14
                     && r.free && !r.pastDue && r.notices <= b.notices + 1)
            && (Selected(b, c.hasEmail) && Whole(c) && DaysSince(b.since.value, c.now) >= 14 ==> r.free)
  {
    if Selected(b, c.hasEmail) {
      RestFrame(b, DaysSince(b.since.value, c.now), c.log, c.writes, 0);
    }
  }

  // ---- How often a reminder goes out ----

  /** Cycle `i` mailed `o` and died before its event. */
  ghost predicate Unmarked(b0: Book, cycles: seq<Cycle>, i: nat, o: int)
    requires i < |cycles|
  {
    Count(At(b0, cycles, i + 1).mails, o) > Count(At(b0, cycles, i).mails, o) && o !in At(b0, cycles, i + 1).events
  }

  /** In cycle `j` the log row for `o` is missing or cannot be read. */
  ghost predicate Blind(b0: Book, cycles: seq<Cycle>, j: nat, o: int)
    requires j < |cycles|
  {
    o !in At(b0, cycles, j).log || o !in cycles[j].log.lookups
  }

  /** For each cycle, whether it mailed `o` and died before its event. */
  ghost function UnmarkedEach(b0: Book, cycles: seq<Cycle>, o: int): seq<bool> {
    seq(|cycles|, i requires 0 <= i < |cycles| => Unmarked(b0, cycles, i, o))
  }

  ghost function BlindEach(b0: Book, cycles: seq<Cycle>, o: int): seq<bool> {
    seq(|cycles|, j requires 0 <= j < |cycles| => Blind(b0, cycles, j, o))
  }

  function Trues(flags: seq<bool>, m: nat): nat
    requires m <= |flags|
  {
    if m == 0 then 0 else Trues(flags, m - 1) + if flags[m-1] then 1 else 0
  }

  ghost predicate Between(blind: seq<bool>, i: nat, n: nat)
    requires n <= |blind|
  {
    exists j: nat :: i < j < n && blind[j]
  }

  /** Of the first `m` cycles, those unmarked and followed, before the `n`-th, by a blind one. */
  ghost function Slips(unmarked: seq<bool>, blind: seq<bool>, m: nat, n: nat): nat
    requires m <= n <= |blind| == |unmarked|
  {
    if m == 0 then 0
    else Slips(unmarked, blind, m - 1, n) + if unmarked[m-1] && Between(blind, m - 1, n) then 1 else 0
  }

  lemma {:induction false} SlipsGrow(unmarked: seq<bool>, blind: seq<bool>, m: nat, n: nat)
    requires m <= n < |blind| == |unmarked|
    ensures Slips(unmarked, blind, m, n) <= Slips(unmarked, blind, m, n + 1)
    ensures blind[n] ==> Slips(unmarked, blind, m, n + 1) == Trues(unmarked, m)
  {
    if m > 0 {
      SlipsGrow(unmarked, blind, m - 1, n);
    }
  }

  ghost function SlipsOf(b0: Book, cycles: seq<Cycle>, n: nat, o: int): nat
    requires n <= |cycles|
  {
    Slips(UnmarkedEach(b0, cycles, o), BlindEach(b0, cycles, o), n, n)
  }

  /** What the count of mails is worth after `n` cycles. */
  ghost predicate Tallied(b0: Book, cycles: seq<Cycle>, n: nat, o: int)
    requires n <= |cycles|
  {
    var b := At(b0, cycles, n);
    && (if o in b0.events then o in b.events && Count(b.mails, o) == 0
        else && Count(b.mails, o) <= 1 + SlipsOf(b0, cycles, n, o)
             && (o !in b.events ==> Count(b.mails, o) == Trues(UnmarkedEach(b0, cycles, o), n)))
  }

  lemma TalliedStep(b0: Book, cycles: seq<Cycle>, n: nat, o: int)
    requires o in OFFSETS && n < |cycles| && Tallied(b0, cycles, n, o)
    ensures Tallied(b0, cycles, n + 1, o)
  {
    var b, c := At(b0, cycles, n), cycles[n];
    CycleFrame(b, c);
    SlipsGrow(UnmarkedEach(b0, cycles, o), BlindEach(b0, cycles, o), n, n);
    if Selected(b, c.hasEmail) {
      var k := CycleSteps(b, c, o);
    }
  }

  /**
   One cycle on the clock: a reminder goes out only when its offset's days have gone by since
   the episode began, and a whole cycle then sends it unless it finds it sent.
   */
  lemma CycleMails(b: Book, c: Cycle, o: int)
    requires o in {3, 7, 14} && b.since.Some?
    ensures var sent, before := Count(After(b, c).mails, o), Count(b.mails, o);
            && before <= sent <= before + 1
            && (sent > before ==> b.pastDue && c.hasEmail && b.since.value + o * 86_400_000_000 <= c.now)
            && (b.pastDue && c.hasEmail && Whole(c) ==>
                  (sent > before <==> && b.since.value + o * 86_400_000_000 <= c.now
                                      && o !in b.events && (o in b.log ==> o !in c.log.lookups)))
            && (sent > before && Whole(c) ==> o in After(b, c).events && (o in c.log.inserts ==> o in After(b, c).log))
  {
    assert o in OFFSETS by { assert OFFSETS[0] == 3 && OFFSETS[1] == 7 && OFFSETS[2] == 14; }
    if Selected(b, c.hasEmail) {
      var k := CycleSteps(b, c, o);
    }
  }

  /**
   What a whole cycle at `now` makes of book `b`: the reminder `o` goes out exactly when the tenant is
   past due, has an email, that many days have gone by and it is not seen to be sent; and the plan is
   free afterwards exactly when it was or fourteen days have gone by.
   */
  predicate OnTheClock(b: Book, b': Book, now: int, hasEmail: bool, l: SentLog, o: int) {
    var chosen := b.pastDue && b.since.Some? && hasEmail;
    && Count(b'.mails, o) == Count(b.mails, o)
         + (if chosen && b.since.value + o * 86_400_000_000 <= now
               && o !in b.events && (o in b.log ==> o !in l.lookups) then 1 else 0)
    && (b'.free <==> b.free || (chosen && b.since.value + 14 * 86_400_000_000 <= now))
  }

  lemma WholeCycle(b: Book, c: Cycle, o: int)
    requires o in {3, 7, 14} && Whole(c)
    ensures OnTheClock(b, After(b, c), c.now, c.hasEmail, c.log, o)
  {
    if b.since.Some? {
      CycleMails(b, c, o);
      CycleFrame(b, c);
    }
  }

  /** And nothing but these three reminders is mailed. */
  lemma {:induction false} NoOtherMails(b: Book, day: int, l: SentLog, w: nat, i: nat, o: int)
    requires i <= |OFFSETS| && o !in {3, 7, 14}
    ensures Count(Rest(b, day, l, w, i).mails, o) == Count(b.mails, o)
    decreases |OFFSETS| - i
  {
    if i < |OFFSETS| {
      HandledOther(b, day, OFFSETS[i], l, w, o);
      NoOtherMails(Handled(b, day, OFFSETS[i], l, w), day, l, Left(b, day, OFFSETS[i], l, w), i + 1, o);
    }
  }

  /** Cycle `i` mailed `o` no earlier than that many days into the episode. */
  ghost predicate Timely(b0: Book, cycles: seq<Cycle>, i: nat, o: int)
    requires i < |cycles| && b0.since.Some?
  {
    Count(At(b0, cycles, i + 1).mails, o) > Count(At(b0, cycles, i).mails, o) ==>
      b0.since.value + o * 86_400_000_000 <= cycles[i].now
  }

  lemma {:induction false} SinceStays(b0: Book, cycles: seq<Cycle>, n: nat)
    requires n <= |cycles|
    ensures At(b0, cycles, n).since == b0.since
  {
    if n > 0 {
      SinceStays(b0, cycles, n - 1);
      CycleFrame(At(b0, cycles, n - 1), cycles[n-1]);
    }
  }

  lemma MailedTimely(b0: Book, cycles: seq<Cycle>, i: nat, o: int)
    requires b0.since.Some? && o in OFFSETS && i < |cycles|
    ensures Timely(b0, cycles, i, o)
  {
    SinceStays(b0, cycles, i);
    CycleMails(At(b0, cycles, i), cycles[i], o);
  }

  lemma TalliedSteps(b0: Book, cycles: seq<Cycle>, o: int)
    requires o in OFFSETS
    ensures forall n | 0 <= n < |cycles| && Tallied(b0, cycles, n, o) :: Tallied(b0, cycles, n + 1, o)
  {
    forall n | 0 <= n < |cycles| && Tallied(b0, cycles, n, o) ensures Tallied(b0, cycles, n + 1, o) {
      TalliedStep(b0, cycles, n, o);
    }
  }

  lemma NothingTallied(b0: Book, cycles: seq<Cycle>, o: int)
    requires Begun(b0)
    ensures Tallied(b0, cycles, 0, o)
  {
  }

  lemma TalliedHolds(b0: Book, cycles: seq<Cycle>, n: nat, o: int)
    requires Begun(b0) && o in OFFSETS && n <= |cycles|
    ensures Tallied(b0, cycles, n, o)
  {
    var p := k => 0 <= k <= |cycles| && Tallied(b0, cycles, k, o);
    NothingTallied(b0, cycles, o);
    TalliedSteps(b0, cycles, o);
    UpTo(p, n);
  }

  /**
   Whatever dies and however the log fails, a reminder is never early, and goes out at most once,
   and once more for each cycle that mailed it, died before its event, and whose log row a later
   cycle finds missing or unreadable. An event left over from an earlier episode silences it.
   */
  lemma MailedAtMostOnce(b0: Book, cycles: seq<Cycle>, n: nat, o: int)
    requires Begun(b0) && o in OFFSETS && n <= |cycles|
    ensures Tallied(b0, cycles, n, o)
    ensures forall i: nat | i < n :: Timely(b0, cycles, i, o)
  {
    TalliedHolds(b0, cycles, n, o);
    forall i: nat | i < n ensures Timely(b0, cycles, i, o) {
      MailedTimely(b0, cycles, i, o);
    }
  }

  /** A reminder that went out has left its mark: the log row, or the event. */
  predicate MailMarked(b: Book, o: int) {
    Count(b.mails, o) == 0 || (Count(b.mails, o) == 1 && (o in b.log || o in b.events))
  }

  lemma MarkedStep(b: Book, c: Cycle, o: int)
    requires o in OFFSETS && MailMarked(b, o) && o in c.log.inserts && o in c.log.lookups
    ensures MailMarked(After(b, c), o)
  {
    if Selected(b, c.hasEmail) {
      var k := CycleSteps(b, c, o);
    }
  }

  /** Where the log works for an offset, its reminder goes out at most once, whatever dies. */
  lemma {:induction false} WorkingLogMailsOnce(b0: Book, cycles: seq<Cycle>, n: nat, o: int)
    requires Begun(b0) && o in OFFSETS && n <= |cycles|
    requires forall i | 0 <= i < n :: o in cycles[i].log.inserts && o in cycles[i].log.lookups
    ensures Count(At(b0, cycles, n).mails, o) <= 1 && MailMarked(At(b0, cycles, n), o)
  {
    if n > 0 {
      WorkingLogMailsOnce(b0, cycles, n - 1, o);
      MarkedStep(At(b0, cycles, n - 1), cycles[n-1], o);
    }
  }

  // ---- The bound is reached, by either failure of the log ----

  lemma {:induction false} CutShort(b: Book, day: int, l: SentLog, i: nat)
    requires i <= |OFFSETS|
    ensures Rest(b, day, l, 0, i) == b
    decreases |OFFSETS| - i
  {
    if i < |OFFSETS| {
      assert Handled(b, day, OFFSETS[i], l, 0) == b;
      CutShort(b, day, l, i + 1);
    }
  }

  /** The log loses offset 3: its insert or its lookup fails. */
  predicate Loses(l: SentLog) {
    3 !in l.inserts || 3 !in l.lookups
  }

  /** After `n` mails for offset 3 the worker can still not tell that one was sent. */
  predicate Unaware(b: Book, now: int, l: SentLog, n: nat) {
    && Selected(b, true) && DaysSince(b.since.value, now) >= 3
    && Count(b.mails, 3) == n && 3 !in b.events && (3 in b.log ==> 3 !in l.lookups)
  }

  /** One more cycle that mails offset 3 and dies before the event. */
  lemma DiesAfterMail(b: Book, now: int, l: SentLog, n: nat)
    requires Loses(l) && Unaware(b, now, l, n)
    ensures Unaware(After(b, Cycle(now, true, l, 2)), now, l, n + 1)
  {
    var day := DaysSince(b.since.value, now);
    assert Due(b, day, 3, l) && OFFSETS[0] == 3;
    CutShort(Handled(b, day, 3, l, 2), day, l, 1);
    CountSnoc(b.mails, 3, 3);
  }

  /** One that lives to the event. */
  lemma LivesToMail(b: Book, now: int, l: SentLog, n: nat)
    requires Unaware(b, now, l, n)
    ensures var b' := After(b, Cycle(now, true, l, WRITES));
            Count(b'.mails, 3) == n + 1 && 3 in b'.events
  {
    assert Due(b, DaysSince(b.since.value, now), 3, l);
    var k := CycleSteps(b, Cycle(now, true, l, WRITES), 3);
  }

  /** `n` dying cycles and a whole one. */
  function Dying(now: int, l: SentLog, n: nat): seq<Cycle> {
    seq(n, i => Cycle(now, true, l, 2)) + [Cycle(now, true, l, WRITES)]
  }

  lemma DiesNext(b0: Book, now: int, l: SentLog, n: nat, m: nat)
    requires Loses(l) && 0 < m <= n && Unaware(At(b0, Dying(now, l, n), m - 1), now, l, m - 1)
    ensures Unaware(At(b0, Dying(now, l, n), m), now, l, m)
  {
    DiesAfterMail(At(b0, Dying(now, l, n), m - 1), now, l, m - 1);
    assert Dying(now, l, n)[m-1] == Cycle(now, true, l, 2);
  }

  lemma {:induction false} DyingCycles(b0: Book, now: int, l: SentLog, n: nat, m: nat)
    requires Begun(b0) && 3 !in b0.events && b0.since.value + 3 * 86_400_000_000 <= now && Loses(l) && m <= n
    ensures Unaware(At(b0, Dying(now, l, n), m), now, l, m)
  {
    if m > 0 {
      DyingCycles(b0, now, l, n, m - 1);
      DiesNext(b0, now, l, n, m);
    }
  }

  lemma {:induction false} AllTrue(flags: seq<bool>, m: nat)
    requires m <= |flags| && forall i | 0 <= i < m :: flags[i]
    ensures Trues(flags, m) == m
  {
    if m > 0 {
      AllTrue(flags, m - 1);
    }
  }

  lemma DyingUnmarked(b0: Book, now: int, l: SentLog, n: nat, i: nat)
    requires Begun(b0) && 3 !in b0.events && b0.since.value + 3 * 86_400_000_000 <= now && Loses(l) && i < n
    ensures Unmarked(b0, Dying(now, l, n), i, 3)
  {
    DyingCycles(b0, now, l, n, i);
    DyingCycles(b0, now, l, n, i + 1);
  }

  lemma LastIsBlind(b0: Book, now: int, l: SentLog, n: nat)
    requires Begun(b0) && 3 !in b0.events && b0.since.value + 3 * 86_400_000_000 <= now && Loses(l)
    ensures Blind(b0, Dying(now, l, n), n, 3)
  {
    DyingCycles(b0, now, l, n, n);
  }

  /** Each dying cycle is a slip: the last one no longer sees the log row of any. */
  lemma DyingSlip(b0: Book, now: int, l: SentLog, n: nat)
    requires Begun(b0) && 3 !in b0.events && b0.since.value + 3 * 86_400_000_000 <= now && Loses(l)
    ensures SlipsOf(b0, Dying(now, l, n), n + 1, 3) == n
  {
    var cycles := Dying(now, l, n);
    var unmarked, blind := UnmarkedEach(b0, cycles, 3), BlindEach(b0, cycles, 3);
    forall i | 0 <= i < n ensures unmarked[i] {
      DyingUnmarked(b0, now, l, n, i);
    }
    AllTrue(unmarked, n);
    LastIsBlind(b0, now, l, n);
    SlipsGrow(unmarked, blind, n, n);
    assert !Between(blind, n, n + 1);
  }

  /** With `n` slips a reminder can go out `n + 1` times, whether the log's inserts fail or only its lookups. */
  lemma SlipsMailAgain(b0: Book, now: int, l: SentLog, n: nat)
    requires Begun(b0) && 3 !in b0.events && b0.since.value + 3 * 86_400_000_000 <= now && Loses(l)
    ensures exists cycles :: && |cycles| == n + 1 && SlipsOf(b0, cycles, n + 1, 3) == n
                             && Count(At(b0, cycles, n + 1).mails, 3) == n + 1
  {
    var cycles := Dying(now, l, n);
    DyingSlip(b0, now, l, n);
    DyingCycles(b0, now, l, n, n);
    LivesToMail(At(b0, cycles, n), now, l, n);
    assert |cycles| == n + 1;
  }

  // ---- The downgrade and its notice ----

  predicate NonDecreasing(cycles: seq<Cycle>) {
    forall i, j | 0 <= i < j < |cycles| :: cycles[i].now <= cycles[j].now
  }

  /** One of the first `n` cycles finds an email at day 14 or later. */
  ghost predicate DowngradeSeen(since: int, cycles: seq<Cycle>, n: nat)
    requires n <= |cycles|
  {
    exists i: nat :: i < n && cycles[i].hasEmail && since + 14 * 86_400_000_000 <= cycles[i].now
  }

  /** The tenant is downgraded by the first whole cycle at day 14 that finds an email, and by no cycle before day 14. */
  lemma {:induction false} DowngradedExactly(b0: Book, cycles: seq<Cycle>, n: nat)
    requires Begun(b0) && n <= |cycles|
    ensures var b := At(b0, cycles, n);
            && b.since == b0.since && (b.free <==> !b.pastDue) && b.notices <= (if b.free then 1 else 0)
            && (b.free ==> DowngradeSeen(b0.since.value, cycles, n))
            && ((forall i | 0 <= i < n :: Whole(cycles[i])) ==> (b.free <==> DowngradeSeen(b0.since.value, cycles, n)))
  {
    if n > 0 {
      DowngradedExactly(b0, cycles, n - 1);
      CycleFrame(At(b0, cycles, n - 1), cycles[n-1]);
    }
  }

  /**
   The last loop turn and the downgrade send the notice exactly when the log hides a mail
   without an event at the second look only.
   */
  lemma NoticeBehindLoop(b: Book, day: int, l: SentLog, w: nat)
    requires day >= 14 && !b.free && w >= 4
    ensures Rest(b, day, l, w, 2).notices
            == b.notices + if 14 in b.log && 14 !in b.events && 14 in l.lookups && !l.noticeLookup then 1 else 0
  {
    HandledInFull(b, day, 14, l, w);
    assert Rest(b, day, l, w, 2) == Rest(Handled(b, day, 14, l, w), day, l, Left(b, day, 14, l, w), 3);
  }

  /** The downgrade is the first of up to four writes: log row, notice and event follow if day 14 is not seen. */
  lemma DowngradeWrites(b: Book, day: int, l: SentLog, w: nat)
    requires day >= 14 && !b.free && 14 !in b.events
    ensures var r, unseen := Rest(b, day, l, w, |OFFSETS|), 14 !in b.log || !l.noticeLookup;
            && (r.free <==> w >= 1) && (w >= 1 ==> !r.pastDue)
            && (14 in r.log <==> 14 in b.log || (unseen && w >= 2 && l.noticeInsert))
            && r.notices == b.notices + (if unseen && w >= 3 then 1 else 0)
            && (14 in r.events <==> unseen && w >= 4)
            && r.mails == b.mails && r.since == b.since
  {
  }

  /**
   The downgrade notice goes out only in a cycle that finds offset 14 logged without an event, so
   that an earlier cycle died on it, and whose second look at the log fails after the first one
   worked. A cycle that finds no such trace never sends it.
   */
  lemma NoticeExactly(b: Book, c: Cycle)
    requires Selected(b, c.hasEmail) && Whole(c) && !b.free
    requires b.since.value + 14 * 86_400_000_000 <= c.now
    ensures After(b, c).notices
            == b.notices + if 14 in b.log && 14 !in b.events && 14 in c.log.lookups && !c.log.noticeLookup then 1 else 0
  {
    var day, l := DaysSince(b.since.value, c.now), c.log;
    var b1, w1 := Handled(b, day, 3, l, c.writes), Left(b, day, 3, l, c.writes);
    var b2, w2 := Handled(b1, day, 7, l, w1), Left(b1, day, 7, l, w1);
    assert Rest(b, day, l, c.writes, 0) == Rest(b1, day, l, w1, 1) == Rest(b2, day, l, w2, 2);
    HandledOther(b, day, 3, l, c.writes, 14);
    HandledOther(b1, day, 7, l, w1, 14);
    NoticeBehindLoop(b2, day, l, w2);
  }

  // ---- With no cycle dying ----

  /**
   An offset has its event when it was silenced or mailed once, none is mailed beyond
   `day`, and none is logged without it.
   */
  predicate Record(b: Book, o: int, silenced: bool, day: int) {
    && Count(b.mails, o) <= 1
    && (o in b.events <==> silenced || Count(b.mails, o) == 1)
    && (o in b.log ==> o in b.events)
    && (Count(b.mails, o) == 1 ==> o <= day && !silenced)
    && (!b.pastDue ==> o in b.events)
  }

  lemma RecordStep(b: Book, c: Cycle, o: int, silenced: bool, day: int)
    requires Record(b, o, silenced, day) && b.since.Some? && DaysSince(b.since.value, c.now) <= day
    requires o in OFFSETS && Whole(c)
    ensures Record(After(b, c), o, silenced, day)
    ensures c.hasEmail && o <= DaysSince(b.since.value, c.now) ==> o in After(b, c).events
  {
    if Selected(b, c.hasEmail) {
      var d := DaysSince(b.since.value, c.now);
      var k := CycleSteps(b, c, o);
      CycleFrame(b, c);
      assert d >= 14 ==> d >= o;
    }
  }

  lemma {:induction false} RecordOfWholeCycles(b0: Book, cycles: seq<Cycle>, n: nat, o: int, day: int)
    requires Begun(b0) && o in OFFSETS && n <= |cycles|
    requires forall i | 0 <= i < n :: Whole(cycles[i]) && DaysSince(b0.since.value, cycles[i].now) <= day
    ensures Record(At(b0, cycles, n), o, o in b0.events, day)
    ensures n > 0 && cycles[n-1].hasEmail && o <= DaysSince(b0.since.value, cycles[n-1].now)
            ==> o in At(b0, cycles, n).events
  {
    if n > 0 {
      RecordOfWholeCycles(b0, cycles, n - 1, o, day);
      DowngradedExactly(b0, cycles, n - 1);
      RecordStep(At(b0, cycles, n - 1), cycles[n-1], o, o in b0.events, day);
    }
  }

  /**
   With no cycle dying, however the log fails, a cycle that finds an email leaves exactly the
   offsets not beyond the elapsed days mailed, each once, save those silenced by an earlier episode.
   */
  lemma {:induction false} MailedExactly(b0: Book, cycles: seq<Cycle>, n: nat, o: int)
    requires Begun(b0) && o in OFFSETS && 0 < n <= |cycles| && NonDecreasing(cycles)
    requires forall i | 0 <= i < n :: Whole(cycles[i])
    requires cycles[n-1].hasEmail
    ensures Count(At(b0, cycles, n).mails, o)
            == if b0.since.value + o * 86_400_000_000 <= cycles[n-1].now && o !in b0.events then 1 else 0
  {
    RecordOfWholeCycles(b0, cycles, n, o, DaysSince(b0.since.value, cycles[n-1].now));
  }
}
