/**
 Any number of `record_session` calls for one user, interleaved statement by
 statement with each other, with explicit revocation and with the retention job.
 */
module SessionRaces {
  import opened Options
  import opened Sessions

  type CallId = nat

  /** Thirty days: the retention job deletes rows not seen since. */
  const RETENTION := 2_592_000_000_000

  /**
   Where a call stands. `wrote` and `readAt` number the writes of the run: the
   call's own, and how many had happened when it read the active rows. A dead
   call raised after its write; the tracker swallows the exception. The rows a
   call read for eviction may be revoked in any order.
   */
  datatype Pc =
    | Looking(sid: string, at: int)
    | Writing(sid: string, at: int, found: Option<RowId>)
    | Reading(at: int, wrote: nat)
    | Evicting(at: int, wrote: nat, readAt: nat, victims: set<RowId>)
    | Dead(wrote: nat)

  datatype State = State(now: int, rows: Table, calls: map<CallId, Pc>, writes: nat)

  datatype Event =
    | Start(c: CallId, sid: string)
    | Look(c: CallId, id: RowId)
    | Put(c: CallId, newId: RowId)
    | Read(c: CallId, victims: set<RowId>)
    | Evict(c: CallId, victim: RowId)
    | Fail(c: CallId)
    | RevokeOne(id: RowId)
    | Purge(id: RowId)
    | Advance(to: int)

  ghost predicate Enabled(limit: nat, s: State, e: Event) {
    match e
    case Start(c, sid) => c !in s.calls && sid != ""
    case Look(c, id) =>
      && c in s.calls && s.calls[c].Looking?
      && (Has(s.rows, s.calls[c].sid) ==> id in s.rows && s.rows[id].sid == s.calls[c].sid)
    case Put(c, newId) =>
      && c in s.calls && s.calls[c].Writing?
      && (s.calls[c].found.None? ==> newId !in s.rows && !Has(s.rows, s.calls[c].sid))
    case Read(c, victims) => c in s.calls && s.calls[c].Reading? && OldestBeyond(limit, s.rows, victims)
    case Evict(c, victim) => c in s.calls && s.calls[c].Evicting? && victim in s.calls[c].victims
    case Fail(c) => c in s.calls && !s.calls[c].Dead?
    case RevokeOne(_) => true
    case Purge(id) => id in s.rows ==> s.rows[id].lastSeen + RETENTION < s.now
    case Advance(to) => s.now <= to
  }

  /** The lookup's verdict: refuse, skip, or go on to the write. */
  ghost function AfterLook(rows: Table, pc: Pc, id: RowId): Option<Pc>
    requires pc.Looking? && (Has(rows, pc.sid) ==> id in rows)
  {
    if Has(rows, pc.sid) then
      if rows[id].revokedAt.Some? || pc.at - rows[id].lastSeen < DEBOUNCE then None
      else Some(Writing(pc.sid, pc.at, Some(id)))
    else Some(Writing(pc.sid, pc.at, None))
  }

  /** Go on revoking while there are rows to revoke, else return. */
  ghost function WithVictims(pc: Pc, readAt: nat, victims: set<RowId>): Option<Pc>
    requires pc.Reading? || pc.Evicting?
  {
    if victims == {} then None else Some(Evicting(pc.at, pc.wrote, readAt, victims))
  }

  ghost function Put1(rows: Table, pc: Pc, newId: RowId): Table
    requires pc.Writing?
  {
    match pc.found
    case Some(id) => if id in rows then Touched(rows, id, pc.sid, pc.at) else rows
    case None => Touched(rows, newId, pc.sid, pc.at)
  }

  ghost function Set(calls: map<CallId, Pc>, c: CallId, pc: Option<Pc>): map<CallId, Pc> {
    match pc
    case Some(p) => calls[c := p]
    case None => calls - {c}
  }

  ghost function Apply(limit: nat, s: State, e: Event): State
    requires Enabled(limit, s, e)
  {
    match e
    case Start(c, sid) => s.(calls := s.calls[c := Looking(sid, s.now)])
    case Look(c, id) => s.(calls := Set(s.calls, c, AfterLook(s.rows, s.calls[c], id)))
    case Put(c, newId) =>
      s.(rows := Put1(s.rows, s.calls[c], newId),
         calls := s.calls[c := Reading(s.calls[c].at, s.writes)],
         writes := s.writes + 1)
    case Read(c, victims) => s.(calls := Set(s.calls, c, WithVictims(s.calls[c], s.writes, victims)))
    case Evict(c, victim) =>
      var pc := s.calls[c];
      s.(rows := Revoked(s.rows, victim, pc.at),
         calls := Set(s.calls, c, WithVictims(pc, pc.readAt, pc.victims - {victim})))
    case Fail(c) =>
      var pc := s.calls[c];
      s.(calls := Set(s.calls, c, if pc.Looking? || pc.Writing? then None else Some(Dead(pc.wrote))))
    case RevokeOne(id) => s.(rows := Revoked(s.rows, id, s.now))
    case Purge(id) => s.(rows := s.rows - {id})
    case Advance(to) => s.(now := to)
  }

  ghost predicate Legal(limit: nat, rows: Table, es: seq<Event>)
    decreases |es|, 0
  {
    es == [] || (Legal(limit, rows, es[..|es|-1]) && Enabled(limit, Exec(limit, rows, es[..|es|-1]), es[|es|-1]))
  }

  /** The state a run reaches from an idle start on table `rows`. */
  ghost function Exec(limit: nat, rows: Table, es: seq<Event>): State
    requires Legal(limit, rows, es)
    decreases |es|, 1
  {
    if es == [] then State(0, rows, map[], 0) else Apply(limit, Exec(limit, rows, es[..|es|-1]), es[|es|-1])
  }

  /** Calls that have written and not finished: reading, evicting, or dead. */
  ghost function Unsettled(calls: map<CallId, Pc>): set<CallId> {
    set c | c in calls && !calls[c].Looking? && !calls[c].Writing?
  }

  /** The unsettled calls that wrote after some call had read. */
  ghost function Late(calls: map<CallId, Pc>, readAt: nat): set<CallId> {
    set c | c in Unsettled(calls) && readAt <= calls[c].wrote
  }

  /** Once this call has revoked what it read, only calls that wrote after its read can exceed the limit. */
  ghost predicate WillSettle(limit: nat, active: set<RowId>, calls: map<CallId, Pc>, pc: Pc)
    requires pc.Evicting?
  {
    pc.wrote < pc.readAt && |active - pc.victims| <= limit + |Late(calls, pc.readAt)|
  }

  ghost predicate Bounded(limit: nat, active: set<RowId>, calls: map<CallId, Pc>) {
    && |active| <= limit + |Unsettled(calls)|
    && forall c | c in calls && calls[c].Evicting? :: WillSettle(limit, active, calls, calls[c])
  }

  /** The stamps are in order. */
  ghost predicate Stamped(calls: map<CallId, Pc>, writes: nat) {
    && (forall c | c in Unsettled(calls) :: calls[c].wrote < writes)
    && (forall c | c in calls && calls[c].Evicting? :: calls[c].readAt <= writes)
  }

  ghost predicate Inv(limit: nat, s: State) {
    Stamped(s.calls, s.writes) && Bounded(limit, Active(s.rows), s.calls)
  }

  lemma SubsetSize<T>(a: set<T>, b: set<T>)
    requires a <= b
    ensures |a| <= |b|
  {
    assert b == a + (b - a);
  }

  /** Fewer active rows, and no call changed in a way the bound can see. */
  lemma Shrinks(limit: nat, active: set<RowId>, active': set<RowId>, calls: map<CallId, Pc>, calls': map<CallId, Pc>)
    requires Bounded(limit, active, calls) && active' <= active
    requires Unsettled(calls') == Unsettled(calls)
    requires forall c | c in Unsettled(calls) :: calls'[c].wrote == calls[c].wrote
    requires forall c | c in calls' && calls'[c].Evicting? ::
               c in calls && calls[c].Evicting? && calls'[c].readAt == calls[c].readAt
               && active' - calls'[c].victims <= active - calls[c].victims
    ensures Bounded(limit, active', calls')
  {
    SubsetSize(active', active);
    forall c | c in calls' && calls'[c].Evicting? ensures WillSettle(limit, active', calls', calls'[c]) {
      assert c in Unsettled(calls);
      assert WillSettle(limit, active, calls, calls[c]);
      assert Late(calls', calls'[c].readAt) == Late(calls, calls[c].readAt);
      SubsetSize(active' - calls'[c].victims, active - calls[c].victims);
    }
  }

  /** A write adds one active row and one unsettled call, late for every call that has read. */
  lemma Writes(limit: nat, active: set<RowId>, active': set<RowId>, row: RowId,
               calls: map<CallId, Pc>, c: CallId, at: int, writes: nat)
    requires Bounded(limit, active, calls) && Stamped(calls, writes) && active' <= active + {row}
    requires c in calls && calls[c].Writing?
    ensures Bounded(limit, active', calls[c := Reading(at, writes)])
  {
    var calls' := calls[c := Reading(at, writes)];
    assert Unsettled(calls') == Unsettled(calls) + {c};
    SubsetSize(active', active + {row});
    forall e | e in calls' && calls'[e].Evicting? ensures WillSettle(limit, active', calls', calls'[e]) {
      assert WillSettle(limit, active, calls, calls[e]);
      var readAt, victims := calls[e].readAt, calls[e].victims;
      assert Late(calls', readAt) == Late(calls, readAt) + {c};
      SubsetSize(active' - victims, (active - victims) + {row});
    }
  }

  /** A call finishes when at most `limit` rows, plus those of later writers, are active. */
  lemma Settles(limit: nat, active: set<RowId>, active': set<RowId>, calls: map<CallId, Pc>, c: CallId, readAt: nat)
    requires Bounded(limit, active, calls) && active' <= active && c in Unsettled(calls)
    requires calls[c].wrote < readAt && |active'| <= limit + |Late(calls, readAt)|
    ensures Bounded(limit, active', calls - {c})
  {
    var calls' := calls - {c};
    assert Unsettled(calls') == Unsettled(calls) - {c};
    SubsetSize(Late(calls, readAt), Unsettled(calls'));
    forall e | e in calls' && calls'[e].Evicting? ensures WillSettle(limit, active', calls', calls'[e]) {
      assert WillSettle(limit, active, calls, calls[e]);
      var victims := calls[e].victims;
      assert Late(calls', calls[e].readAt) == Late(calls, calls[e].readAt) - {c};
      if calls[e].readAt <= calls[c].wrote {
        SubsetSize(active' - victims, active');
        SubsetSize(Late(calls, readAt), Late(calls', calls[e].readAt));
      } else {
        SubsetSize(active' - victims, active - victims);
      }
    }
  }

  /** A call that has just read will leave at most `limit` rows behind. */
  lemma Reads(limit: nat, active: set<RowId>, calls: map<CallId, Pc>, c: CallId, readAt: nat, victims: set<RowId>)
    requires Bounded(limit, active, calls) && c in calls && calls[c].Reading? && calls[c].wrote < readAt
    requires |active - victims| <= limit && victims != {}
    ensures Bounded(limit, active, calls[c := Evicting(calls[c].at, calls[c].wrote, readAt, victims)])
  {
    var calls' := calls[c := Evicting(calls[c].at, calls[c].wrote, readAt, victims)];
    assert Unsettled(calls') == Unsettled(calls);
    forall e | e in calls' && calls'[e].Evicting? ensures WillSettle(limit, active, calls', calls'[e]) {
      if e != c {
        assert WillSettle(limit, active, calls, calls[e]);
        assert Late(calls', calls[e].readAt) == Late(calls, calls[e].readAt);
      }
    }
  }

  lemma OverflowGone(limit: nat, rows: Table, victims: set<RowId>)
    requires OldestBeyond(limit, rows, victims)
    ensures |Active(rows) - victims| <= limit
  {
    assert |Active(rows) - victims| == |Active(rows)| - |victims|;
  }

  lemma ReadStep(limit: nat, s: State, c: CallId, victims: set<RowId>)
    requires Inv(limit, s) && Enabled(limit, s, Read(c, victims))
    ensures Inv(limit, Apply(limit, s, Read(c, victims)))
  {
    OverflowGone(limit, s.rows, victims);
    assert c in Unsettled(s.calls);
    if victims == {} {
      assert Active(s.rows) - {} == Active(s.rows);
      Settles(limit, Active(s.rows), Active(s.rows), s.calls, c, s.writes);
    } else {
      Reads(limit, Active(s.rows), s.calls, c, s.writes, victims);
    }
  }

  /** One row revoked, more to go. */
  lemma EvictsOn(limit: nat, active: set<RowId>, calls: map<CallId, Pc>, c: CallId, victim: RowId)
    requires Bounded(limit, active, calls) && c in calls && calls[c].Evicting?
    ensures Bounded(limit, active - {victim}, calls[c := calls[c].(victims := calls[c].victims - {victim})])
  {
    var calls' := calls[c := calls[c].(victims := calls[c].victims - {victim})];
    assert Unsettled(calls') == Unsettled(calls);
    Shrinks(limit, active, active - {victim}, calls, calls');
  }

  /** The last row revoked. */
  lemma EvictsLast(limit: nat, active: set<RowId>, calls: map<CallId, Pc>, c: CallId, victim: RowId)
    requires Bounded(limit, active, calls) && c in calls && calls[c].Evicting? && calls[c].victims == {victim}
    ensures Bounded(limit, active - {victim}, calls - {c})
  {
    assert WillSettle(limit, active, calls, calls[c]);
    Settles(limit, active, active - {victim}, calls, c, calls[c].readAt);
  }

  lemma StampsKept(calls: map<CallId, Pc>, c: CallId, pc: Option<Pc>, writes: nat)
    requires Stamped(calls, writes) && c in calls && calls[c].Evicting?
    requires pc.Some? ==> pc.value.Evicting? && pc.value.wrote == calls[c].wrote && pc.value.readAt == calls[c].readAt
    ensures Stamped(Set(calls, c, pc), writes)
  {
    assert c in Unsettled(calls);
    assert Unsettled(Set(calls, c, pc)) <= Unsettled(calls);
  }

  lemma EvictStep(limit: nat, s: State, c: CallId, victim: RowId)
    requires Inv(limit, s) && Enabled(limit, s, Evict(c, victim))
    ensures Inv(limit, Apply(limit, s, Evict(c, victim)))
  {
    var s' := Apply(limit, s, Evict(c, victim));
    var pc := s.calls[c];
    assert Active(s'.rows) == Active(s.rows) - {victim};
    var pc' := WithVictims(pc, pc.readAt, pc.victims - {victim});
    StampsKept(s.calls, c, pc', s.writes);
    if pc'.None? {
      assert pc.victims == {victim};
      EvictsLast(limit, Active(s.rows), s.calls, c, victim);
    } else {
      EvictsOn(limit, Active(s.rows), s.calls, c, victim);
    }
  }

  lemma PutStep(limit: nat, s: State, c: CallId, newId: RowId)
    requires Inv(limit, s) && Enabled(limit, s, Put(c, newId))
    ensures Inv(limit, Apply(limit, s, Put(c, newId)))
  {
    var s' := Apply(limit, s, Put(c, newId));
    var pc := s.calls[c];
    var row := if pc.found.Some? then pc.found.value else newId;
    assert Active(s'.rows) <= Active(s.rows) + {row};
    Writes(limit, Active(s.rows), Active(s'.rows), row, s.calls, c, pc.at, s.writes);
  }

  lemma CallStep(limit: nat, s: State, c: CallId, pc: Option<Pc>)
    requires Inv(limit, s) && (c in s.calls ==> !s.calls[c].Evicting?)
    requires pc.Some? ==> !pc.value.Evicting?
    requires if c in Unsettled(s.calls) then pc == Some(Dead(s.calls[c].wrote))
             else pc.None? || pc.value.Looking? || pc.value.Writing?
    ensures Inv(limit, s.(calls := Set(s.calls, c, pc)))
  {
    var calls' := Set(s.calls, c, pc);
    assert Unsettled(calls') == Unsettled(s.calls);
    Shrinks(limit, Active(s.rows), Active(s.rows), s.calls, calls');
  }

  /** An evicting call that dies leaves its rows to the others. */
  lemma EvictorDies(limit: nat, s: State, c: CallId)
    requires Inv(limit, s) && c in s.calls && s.calls[c].Evicting?
    ensures Inv(limit, s.(calls := s.calls[c := Dead(s.calls[c].wrote)]))
  {
    var calls' := s.calls[c := Dead(s.calls[c].wrote)];
    assert Unsettled(calls') == Unsettled(s.calls);
    Shrinks(limit, Active(s.rows), Active(s.rows), s.calls, calls');
  }

  lemma RowsStep(limit: nat, s: State, rows: Table)
    requires Inv(limit, s) && Active(rows) <= Active(s.rows)
    ensures Inv(limit, s.(rows := rows))
  {
    Shrinks(limit, Active(s.rows), Active(rows), s.calls, s.calls);
  }

  lemma FailStep(limit: nat, s: State, c: CallId)
    requires Inv(limit, s) && Enabled(limit, s, Fail(c))
    ensures Inv(limit, Apply(limit, s, Fail(c)))
  {
    var pc := s.calls[c];
    if pc.Evicting? {
      EvictorDies(limit, s, c);
    } else {
      CallStep(limit, s, c, if pc.Looking? || pc.Writing? then None else Some(Dead(pc.wrote)));
    }
  }

  lemma OtherStep(limit: nat, s: State, e: Event)
    requires Inv(limit, s) && Enabled(limit, s, e) && !e.Put? && !e.Read? && !e.Evict?
    ensures Inv(limit, Apply(limit, s, e))
  {
    match e
    case Start(c, sid) => CallStep(limit, s, c, Some(Looking(sid, s.now)));
    case Look(c, id) => CallStep(limit, s, c, AfterLook(s.rows, s.calls[c], id));
    case Fail(c) => FailStep(limit, s, c);
    case RevokeOne(id) => RowsStep(limit, s, Revoked(s.rows, id, s.now));
    case Purge(id) => RowsStep(limit, s, s.rows - {id});
    case Advance(_) =>
  }

  lemma InvStep(limit: nat, s: State, e: Event)
    requires Inv(limit, s) && Enabled(limit, s, e)
    ensures Inv(limit, Apply(limit, s, e))
  {
    match e
    case Put(c, newId) => PutStep(limit, s, c, newId);
    case Read(c, victims) => ReadStep(limit, s, c, victims);
    case Evict(c, victim) => EvictStep(limit, s, c, victim);
    case _ => OtherStep(limit, s, e);
  }

  lemma {:induction false} InvOfRun(limit: nat, rows: Table, es: seq<Event>)
    requires |Active(rows)| <= limit && Legal(limit, rows, es)
    ensures Inv(limit, Exec(limit, rows, es))
    decreases |es|
  {
    if es == [] {
      assert Unsettled(map[]) == {};
    } else {
      InvOfRun(limit, rows, es[..|es|-1]);
      InvStep(limit, Exec(limit, rows, es[..|es|-1]), es[|es|-1]);
    }
  }

  // ---- What a finished call settles ----

  /** The call of `e` has read and has nothing left to revoke: when it read, else nothing. */
  ghost function Finished(limit: nat, s: State, e: Event): nat
    requires Enabled(limit, s, e)
  {
    match e
    case Read(_, victims) => if victims == {} then s.writes else 0
    case Evict(c, victim) => if s.calls[c].victims == {victim} then s.calls[c].readAt else 0
    case _ => 0
  }

  /** The latest read of any call that has finished, counted in writes. */
  ghost function LastSettled(limit: nat, rows: Table, es: seq<Event>): nat
    requires Legal(limit, rows, es)
  {
    if es == [] then 0
    else
      var before := LastSettled(limit, rows, es[..|es|-1]);
      var now := Finished(limit, Exec(limit, rows, es[..|es|-1]), es[|es|-1]);
      if before < now then now else before
  }

  /** Only unsettled calls that wrote at or after mark `m` are above the limit. */
  ghost predicate Within(limit: nat, s: State, m: nat) {
    m <= s.writes && |Active(s.rows)| <= limit + |Late(s.calls, m)|
  }

  lemma PutWithin(limit: nat, s: State, c: CallId, newId: RowId, m: nat)
    requires Within(limit, s, m) && Enabled(limit, s, Put(c, newId))
    ensures Within(limit, Apply(limit, s, Put(c, newId)), m)
  {
    var s' := Apply(limit, s, Put(c, newId));
    var pc := s.calls[c];
    var row := if pc.found.Some? then pc.found.value else newId;
    assert Late(s'.calls, m) == Late(s.calls, m) + {c};
    SubsetSize(Active(s'.rows), Active(s.rows) + {row});
  }

  lemma ReadWithin(limit: nat, s: State, c: CallId, victims: set<RowId>, m: nat)
    requires Inv(limit, s) && Within(limit, s, m) && Enabled(limit, s, Read(c, victims))
    ensures var s' := Apply(limit, s, Read(c, victims));
            Within(limit, s', if victims == {} && m < s.writes then s.writes else m)
  {
    var s' := Apply(limit, s, Read(c, victims));
    if victims == {} {
      OverflowGone(limit, s.rows, {});
      assert Active(s.rows) - {} == Active(s.rows);
    } else {
      assert Late(s'.calls, m) == Late(s.calls, m);
    }
  }

  /** More to revoke: the same calls are late. */
  lemma EvictsOnWithin(limit: nat, active: set<RowId>, calls: map<CallId, Pc>, c: CallId, victim: RowId, m: nat)
    requires |active| <= limit + |Late(calls, m)| && c in calls && calls[c].Evicting?
    ensures var calls' := calls[c := calls[c].(victims := calls[c].victims - {victim})];
            |active - {victim}| <= limit + |Late(calls', m)|
  {
    assert Late(calls[c := calls[c].(victims := calls[c].victims - {victim})], m) == Late(calls, m);
    SubsetSize(active - {victim}, active);
  }

  /** Nothing more to revoke: the call was not late, and its own read may be the latest. */
  lemma EvictsLastWithin(limit: nat, active: set<RowId>, calls: map<CallId, Pc>, c: CallId, victim: RowId, m: nat)
    requires |active| <= limit + |Late(calls, m)| && c in calls && calls[c].Evicting?
    requires calls[c].victims == {victim} && WillSettle(limit, active, calls, calls[c])
    ensures |active - {victim}| <= limit + |Late(calls - {c}, if m < calls[c].readAt then calls[c].readAt else m)|
  {
    if m < calls[c].readAt {
      assert Late(calls - {c}, calls[c].readAt) == Late(calls, calls[c].readAt);
    } else {
      assert Late(calls - {c}, m) == Late(calls, m);
      SubsetSize(active - {victim}, active);
    }
  }

  lemma NoneLeft(victims: set<RowId>, victim: RowId)
    requires victim in victims
    ensures victims - {victim} == {} <==> victims == {victim}
  {
    if victims - {victim} == {} {
      assert victims == (victims - {victim}) + {victim};
    }
  }

  lemma EvictWithin(limit: nat, s: State, c: CallId, victim: RowId, m: nat)
    requires Within(limit, s, m) && Enabled(limit, s, Evict(c, victim))
    requires s.calls[c].readAt <= s.writes && WillSettle(limit, Active(s.rows), s.calls, s.calls[c])
    ensures var s', readAt := Apply(limit, s, Evict(c, victim)), s.calls[c].readAt;
            Within(limit, s', if s.calls[c].victims == {victim} && m < readAt then readAt else m)
  {
    var s', pc := Apply(limit, s, Evict(c, victim)), s.calls[c];
    assert Active(s'.rows) == Active(s.rows) - {victim};
    NoneLeft(pc.victims, victim);
    if pc.victims == {victim} {
      EvictsLastWithin(limit, Active(s.rows), s.calls, c, victim, m);
    } else {
      EvictsOnWithin(limit, Active(s.rows), s.calls, c, victim, m);
    }
  }

  lemma OtherWithin(limit: nat, s: State, e: Event, m: nat)
    requires Within(limit, s, m) && Enabled(limit, s, e) && !e.Put? && !e.Read? && !e.Evict?
    ensures Within(limit, Apply(limit, s, e), m)
  {
    var s' := Apply(limit, s, e);
    assert Late(s'.calls, m) == Late(s.calls, m);
    SubsetSize(Active(s'.rows), Active(s.rows));
  }

  /**
   At every moment of every interleaving the active sessions exceed the limit by no more than
   the calls, still between their write and their end or dead there, that wrote after the
   latest read of any finished call.
   */
  lemma {:induction false} ConcurrentBound(limit: nat, rows: Table, es: seq<Event>)
    requires |Active(rows)| <= limit && Legal(limit, rows, es)
    ensures Within(limit, Exec(limit, rows, es), LastSettled(limit, rows, es))
    decreases |es|
  {
    if es == [] {
      assert Late(map[], 0) == {};
    } else {
      var s, e := Exec(limit, rows, es[..|es|-1]), es[|es|-1];
      var m := LastSettled(limit, rows, es[..|es|-1]);
      ConcurrentBound(limit, rows, es[..|es|-1]);
      InvOfRun(limit, rows, es[..|es|-1]);
      match e
      case Put(c, newId) => PutWithin(limit, s, c, newId, m);
      case Read(c, victims) => ReadWithin(limit, s, c, victims, m);
      case Evict(c, victim) => EvictWithin(limit, s, c, victim, m);
      case _ => OtherWithin(limit, s, e, m);
    }
  }

  /**
   So the limit holds whenever every call that is neither before its write nor finished wrote
   before the latest read of a finished one: a dead call stops counting once a call that read
   after its write has finished.
   */
  lemma SettledHolds(limit: nat, rows: Table, es: seq<Event>)
    requires |Active(rows)| <= limit && Legal(limit, rows, es)
    requires var calls := Exec(limit, rows, es).calls;
             forall c | c in Unsettled(calls) :: calls[c].wrote < LastSettled(limit, rows, es)
    ensures |Active(Exec(limit, rows, es).rows)| <= limit
  {
    ConcurrentBound(limit, rows, es);
    assert Late(Exec(limit, rows, es).calls, LastSettled(limit, rows, es)) == {};
  }

  // ---- One call alone is Sessions.Call ----

  ghost predicate Leads(limit: nat, s: State, es: seq<Event>, s': State)
    decreases |es|
  {
    if es == [] then s == s' else Enabled(limit, s, es[0]) && Leads(limit, Apply(limit, s, es[0]), es[1..], s')
  }

  lemma LeadsCons(limit: nat, s: State, e: Event, es: seq<Event>, s': State)
    requires Enabled(limit, s, e) && Leads(limit, Apply(limit, s, e), es, s')
    ensures Leads(limit, s, [e] + es, s')
  {
    assert ([e] + es)[1..] == es;
  }

  /** Revoking row by row, in any order, is revoking the set. */
  lemma {:induction false} SoloEvict(limit: nat, s: State, c: CallId) returns (es: seq<Event>)
    requires c in s.calls && s.calls[c].Evicting? && {} < s.calls[c].victims <= s.rows.Keys
    ensures Leads(limit, s, es,
                  s.(rows := RevokedAll(s.rows, s.calls[c].victims, s.calls[c].at), calls := s.calls - {c}))
    decreases s.calls[c].victims
  {
    var pc := s.calls[c];
    var victim :| victim in pc.victims;
    var next := Apply(limit, s, Evict(c, victim));
    if pc.victims == {victim} {
      es := [Evict(c, victim)];
      assert next.rows == RevokedAll(s.rows, pc.victims, pc.at);
      assert es[1..] == [];
    } else {
      var rest := SoloEvict(limit, next, c);
      es := [Evict(c, victim)] + rest;
      assert RevokedAll(next.rows, pc.victims - {victim}, pc.at) == RevokedAll(s.rows, pc.victims, pc.at);
      assert next.calls - {c} == s.calls - {c};
      LeadsCons(limit, s, Evict(c, victim), rest,
                s.(rows := RevokedAll(s.rows, pc.victims, pc.at), calls := s.calls - {c}));
    }
  }

  /** From the write on: write, read, revoke. */
  lemma SoloWrite(limit: nat, s: State, c: CallId, id: RowId, victims: set<RowId>) returns (es: seq<Event>, s': State)
    requires Enabled(limit, s, Put(c, id)) && (s.calls[c].found.Some? ==> s.calls[c].found.value == id && id in s.rows)
    requires OldestBeyond(limit, Touched(s.rows, id, s.calls[c].sid, s.calls[c].at), victims)
    ensures Leads(limit, s, es, s') && s'.calls == s.calls - {c} && s'.now == s.now
    ensures s'.rows == RevokedAll(Touched(s.rows, id, s.calls[c].sid, s.calls[c].at), victims, s.calls[c].at)
  {
    var at := s.calls[c].at;
    var s1 := Apply(limit, s, Put(c, id));
    var s2 := Apply(limit, s1, Read(c, victims));
    var evicting := [];
    s' := s2.(rows := RevokedAll(s2.rows, victims, at), calls := s.calls - {c});
    assert s2.calls - {c} == s.calls - {c};
    if victims == {} {
      assert RevokedAll(s1.rows, {}, at) == s1.rows;
      assert s2.calls == s.calls - {c};
    } else {
      evicting := SoloEvict(limit, s2, c);
    }
    LeadsCons(limit, s1, Read(c, victims), evicting, s');
    es := [Put(c, id)] + ([Read(c, victims)] + evicting);
    LeadsCons(limit, s, Put(c, id), [Read(c, victims)] + evicting, s');
  }

  /** The relation proved of SessionTracker.RecordSession is what the statements do with nobody interleaving. */
  lemma CallIsASoloRun(limit: nat, s: State, c: CallId, sid: string, reply: Reply,
                       id: RowId, victims: set<RowId>, after: Table)
    returns (es: seq<Event>, s': State)
    requires c !in s.calls && sid != "" && UniqueSids(s.rows)
    requires Call(limit, s.rows, sid, s.now, reply, id, victims, after)
    ensures Leads(limit, s, es, s') && s'.rows == after && s'.calls == s.calls && s'.now == s.now
  {
    var s1 := Apply(limit, s, Start(c, sid));
    var s2 := Apply(limit, s1, Look(c, id));
    var rest := [];
    s' := s2;
    if reply == Recorded {
      rest, s' := SoloWrite(limit, s2, c, id, victims);
    }
    assert s'.calls == s.calls;
    LeadsCons(limit, s1, Look(c, id), rest, s');
    es := [Start(c, sid)] + ([Look(c, id)] + rest);
    LeadsCons(limit, s, Start(c, sid), [Look(c, id)] + rest, s');
  }

  // ---- The bound is reached for every number of calls, and a revoked session can come back under a race ----

  lemma Extend(limit: nat, rows: Table, es: seq<Event>, e: Event) returns (es': seq<Event>)
    requires Legal(limit, rows, es) && Enabled(limit, Exec(limit, rows, es), e)
    ensures es' == es + [e] && Legal(limit, rows, es')
    ensures Exec(limit, rows, es') == Apply(limit, Exec(limit, rows, es), e)
  {
    es' := es + [e];
    assert es'[..|es'|-1] == es;
  }

  /** Calls 0 to n - 1, each dead after its write. */
  function DeadCalls(n: nat): map<CallId, Pc> {
    if n == 0 then map[] else DeadCalls(n - 1)[n - 1 := Dead(n - 1)]
  }

  /** The table after the first `n` new sessions have been written. */
  function Grown(rows: Table, sids: seq<string>, ids: seq<RowId>, n: nat): Table
    requires n <= |sids| == |ids|
  {
    if n == 0 then rows else Touched(Grown(rows, sids, ids, n - 1), ids[n-1], sids[n-1], 0)
  }

  /** Session ids and row ids for that many new sessions. */
  ghost predicate AllNew(rows: Table, sids: seq<string>, ids: seq<RowId>) {
    && |sids| == |ids|
    && (forall i | 0 <= i < |sids| :: sids[i] != "" && !Has(rows, sids[i]) && ids[i] !in rows)
    && (forall i, j | 0 <= i < j < |sids| :: sids[i] != sids[j])
    && (forall i, j | 0 <= i < j < |sids| :: ids[i] != ids[j])
  }

  lemma {:induction false} DeadCallsUnsettled(n: nat)
    ensures forall c | c in DeadCalls(n) :: c < n && DeadCalls(n)[c].Dead?
    ensures |Unsettled(DeadCalls(n))| == n
  {
    if n == 0 {
      assert Unsettled(DeadCalls(0)) == {};
    } else {
      DeadCallsUnsettled(n - 1);
      assert Unsettled(DeadCalls(n)) == Unsettled(DeadCalls(n - 1)) + {n - 1};
    }
  }

  lemma {:induction false} NextIsNew(rows: Table, sids: seq<string>, ids: seq<RowId>, n: nat, k: nat)
    requires AllNew(rows, sids, ids) && n <= k < |sids|
    ensures !Has(Grown(rows, sids, ids, n), sids[k]) && ids[k] !in Grown(rows, sids, ids, n)
  {
    if n > 0 {
      NextIsNew(rows, sids, ids, n - 1, k);
      var before, after := Grown(rows, sids, ids, n - 1), Grown(rows, sids, ids, n);
      assert forall id | id in after && id != ids[n-1] :: id in before && after[id] == before[id];
      assert sids[n-1] != sids[k];
    }
  }

  lemma TouchedActive(rows: Table, id: RowId, sid: string)
    requires id !in rows
    ensures |Active(Touched(rows, id, sid, 0))| == |Active(rows)| + 1
  {
    assert Active(Touched(rows, id, sid, 0)) == Active(rows) + {id};
  }

  lemma {:induction false} GrownActive(rows: Table, sids: seq<string>, ids: seq<RowId>, n: nat)
    requires AllNew(rows, sids, ids) && n <= |sids|
    ensures |Active(Grown(rows, sids, ids, n))| == |Active(rows)| + n
  {
    if n > 0 {
      GrownActive(rows, sids, ids, n - 1);
      NextIsNew(rows, sids, ids, n - 1, n - 1);
      TouchedActive(Grown(rows, sids, ids, n - 1), ids[n-1], sids[n-1]);
    }
  }

  /** A new session's lookup finds no row, as states. */
  lemma NewLooks(limit: nat, s: State, s1: State, c: CallId, sid: string, id: RowId)
    requires !Has(s.rows, sid) && s1 == s.(calls := s.calls[c := Looking(sid, s.now)])
    ensures Enabled(limit, s1, Look(c, id))
    ensures Apply(limit, s1, Look(c, id)) == s.(calls := s.calls[c := Writing(sid, s.now, None)])
  {
    assert s1.calls[c := Writing(sid, s.now, None)] == s.calls[c := Writing(sid, s.now, None)];
  }

  /** One more new session's call, up to its lookup. */
  lemma OneMoreLooks(limit: nat, rows: Table, es: seq<Event>, s: State, sid: string, id: RowId)
    returns (es': seq<Event>)
    requires Legal(limit, rows, es) && Exec(limit, rows, es) == s && s.now == 0
    requires s.writes !in s.calls && sid != "" && !Has(s.rows, sid)
    ensures Legal(limit, rows, es')
    ensures Exec(limit, rows, es') == s.(calls := s.calls[s.writes := Writing(sid, 0, None)])
  {
    es' := Extend(limit, rows, es, Start(s.writes, sid));
    NewLooks(limit, s, s.(calls := s.calls[s.writes := Looking(sid, 0)]), s.writes, sid, id);
    es' := Extend(limit, rows, es', Look(s.writes, id));
  }

  /** Its write. */
  lemma OneMoreWrites(limit: nat, rows: Table, es: seq<Event>, s: State, sid: string, id: RowId)
    returns (es': seq<Event>)
    requires Legal(limit, rows, es) && Exec(limit, rows, es) == s && s.now == 0
    requires s.writes !in s.calls && sid != "" && !Has(s.rows, sid) && id !in s.rows
    ensures Legal(limit, rows, es')
    ensures Exec(limit, rows, es')
         == State(0, Touched(s.rows, id, sid, 0), s.calls[s.writes := Reading(0, s.writes)], s.writes + 1)
  {
    es' := OneMoreLooks(limit, rows, es, s, sid, id);
    es' := Extend(limit, rows, es', Put(s.writes, id));
  }

  /** And dies there. */
  lemma OneMoreDies(limit: nat, rows: Table, es: seq<Event>, s: State, sid: string, id: RowId)
    returns (es': seq<Event>)
    requires Legal(limit, rows, es) && Exec(limit, rows, es) == s && s.now == 0
    requires s.writes !in s.calls && sid != "" && !Has(s.rows, sid) && id !in s.rows
    ensures Legal(limit, rows, es')
    ensures Exec(limit, rows, es')
         == State(0, Touched(s.rows, id, sid, 0), s.calls[s.writes := Dead(s.writes)], s.writes + 1)
  {
    es' := OneMoreWrites(limit, rows, es, s, sid, id);
    es' := Extend(limit, rows, es', Fail(s.writes));
  }

  lemma {:induction false} DeadCallsRun(limit: nat, rows: Table, sids: seq<string>, ids: seq<RowId>, n: nat)
    returns (es: seq<Event>)
    requires AllNew(rows, sids, ids) && n <= |sids|
    ensures Legal(limit, rows, es)
    ensures Exec(limit, rows, es) == State(0, Grown(rows, sids, ids, n), DeadCalls(n), n)
    decreases n
  {
    if n == 0 {
      es := [];
    } else {
      es := DeadCallsRun(limit, rows, sids, ids, n - 1);
      DeadCallsUnsettled(n - 1);
      NextIsNew(rows, sids, ids, n - 1, n - 1);
      var s := State(0, Grown(rows, sids, ids, n - 1), DeadCalls(n - 1), n - 1);
      es := OneMoreDies(limit, rows, es, s, sids[n-1], ids[n-1]);
    }
  }

  /** Calls for new sessions that each die right after the write exceed the limit by their number: the bound itself. */
  lemma DeadCallsExceedLimit(limit: nat, rows: Table, sids: seq<string>, ids: seq<RowId>) returns (es: seq<Event>)
    requires |Active(rows)| == limit && AllNew(rows, sids, ids)
    ensures Legal(limit, rows, es)
    ensures var s := Exec(limit, rows, es);
            |Active(s.rows)| == limit + |sids| == limit + |Unsettled(s.calls)|
  {
    es := DeadCallsRun(limit, rows, sids, ids, |sids|);
    GrownActive(rows, sids, ids, |sids|);
    DeadCallsUnsettled(|sids|);
  }

  /** The write clears `revoked_at` even when the revocation came after the lookup. */
  lemma RaceReactivates(limit: nat, rows: Table, id: RowId, now: int) returns (es: seq<Event>, before: seq<Event>)
    requires id in rows && rows[id].revokedAt.None? && rows[id].sid != "" && UniqueSids(rows)
    requires 0 <= now && now - rows[id].lastSeen >= DEBOUNCE
    ensures Legal(limit, rows, es) && before < es && Legal(limit, rows, before)
    ensures id in Exec(limit, rows, before).rows && Exec(limit, rows, before).rows[id].revokedAt.Some?
    ensures id in Active(Exec(limit, rows, es).rows)
  {
    es := Extend(limit, rows, [], Advance(now));
    es := Extend(limit, rows, es, Start(0, rows[id].sid));
    es := Extend(limit, rows, es, Look(0, id));
    es := Extend(limit, rows, es, RevokeOne(id));
    before := es;
    es := Extend(limit, rows, es, Put(0, id + 1));
  }

  /** The retention job deletes a revoked row too, and with it the refusal: the same session is let in again. */
  lemma PurgeForgets(limit: nat, rows: Table, id: RowId, newId: RowId, now: int) returns (es: seq<Event>)
    requires id in rows && rows[id].revokedAt.Some? && rows[id].sid != "" && UniqueSids(rows) && newId !in rows
    requires 0 <= now && rows[id].lastSeen + 30 * 86_400_000_000 < now
    ensures Legal(limit, rows, es)
    ensures newId in Active(Exec(limit, rows, es).rows) && Exec(limit, rows, es).rows[newId].sid == rows[id].sid
  {
    es := Extend(limit, rows, [], Advance(now));
    es := Extend(limit, rows, es, Purge(id));
    assert !Has(rows - {id}, rows[id].sid);
    es := Extend(limit, rows, es, Start(0, rows[id].sid));
    es := Extend(limit, rows, es, Look(0, newId));
    es := Extend(limit, rows, es, Put(0, newId));
  }

  // ---- Session ids stay unique ----

  /** No insert takes the row id of a deleted row that a call still holds from its lookup. */
  predicate NoIdComesBack(s: State, e: Event) {
    e.Put? ==> forall c | c in s.calls && s.calls[c].Writing? :: c == e.c || s.calls[c].found != Some(e.newId)
  }

  ghost predicate Fresh(limit: nat, rows: Table, es: seq<Event>)
    decreases |es|
  {
    && Legal(limit, rows, es)
    && (es == [] || (Fresh(limit, rows, es[..|es|-1])
                     && NoIdComesBack(Exec(limit, rows, es[..|es|-1]), es[|es|-1])))
  }

  /** Session ids are unique, and a row a call found is still of its session. */
  ghost predicate UniqueInv(s: State) {
    && UniqueSids(s.rows)
    && forall c | c in s.calls && s.calls[c].Writing? && s.calls[c].found.Some? && s.calls[c].found.value in s.rows ::
         s.rows[s.calls[c].found.value].sid == s.calls[c].sid
  }

  lemma PutKeepsUnique(limit: nat, s: State, c: CallId, newId: RowId)
    requires UniqueInv(s) && Enabled(limit, s, Put(c, newId)) && NoIdComesBack(s, Put(c, newId))
    ensures UniqueInv(Apply(limit, s, Put(c, newId)))
  {
    var pc := s.calls[c];
    if pc.found.None? {
      TouchKeepsUnique(s.rows, newId, pc.sid, pc.at);
    } else if pc.found.value in s.rows {
      TouchKeepsUnique(s.rows, pc.found.value, pc.sid, pc.at);
    }
  }

  lemma UniqueStep(limit: nat, s: State, e: Event)
    requires UniqueInv(s) && Enabled(limit, s, e) && NoIdComesBack(s, e)
    ensures UniqueInv(Apply(limit, s, e))
  {
    if e.Put? {
      PutKeepsUnique(limit, s, e.c, e.newId);
    }
  }

  /** In every interleaving session ids stay unique. */
  lemma {:induction false} UniqueHolds(limit: nat, rows: Table, es: seq<Event>)
    requires UniqueSids(rows) && Fresh(limit, rows, es)
    ensures UniqueInv(Exec(limit, rows, es))
    decreases |es|
  {
    if es != [] {
      UniqueHolds(limit, rows, es[..|es|-1]);
      UniqueStep(limit, Exec(limit, rows, es[..|es|-1]), es[|es|-1]);
    }
  }
}
