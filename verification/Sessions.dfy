/**
 The `active_sessions` rows of one user: recording a session, the 60-second
 debounce and the eviction of the oldest sessions beyond the limit. The method
 runs one call alone; module SessionRaces interleaves the calls' statements.
 */
module Sessions {
  import opened Options

  type RowId = nat

  /** Microseconds, the resolution of the clock. */
  const DEBOUNCE := 60_000_000

  datatype Row = Row(sid: string, lastSeen: int, revokedAt: Option<int>)

  type Table = map<RowId, Row>

  datatype Reply = Recorded | Skipped | Unauthorized

  function Active(rows: Table): set<RowId> {
    set id | id in rows && rows[id].revokedAt.None?
  }

  predicate Has(rows: Table, sid: string) {
    exists id :: id in rows && rows[id].sid == sid
  }

  /** `session_id` is UNIQUE. */
  ghost predicate UniqueSids(rows: Table) {
    forall i, j | i in rows && j in rows && rows[i].sid == rows[j].sid :: i == j
  }

  function Touched(rows: Table, id: RowId, sid: string, now: int): Table {
    rows[id := Row(sid, now, None)]
  }

  /** `UPDATE ... SET revoked_at WHERE id = id`. */
  function Revoked(rows: Table, id: RowId, now: int): Table {
    if id in rows then rows[id := rows[id].(revokedAt := Some(now))] else rows
  }

  function RevokedAll(rows: Table, victims: set<RowId>, now: int): Table {
    map id | id in rows :: if id in victims then rows[id].(revokedAt := Some(now)) else rows[id]
  }

  /** How many of `count` sessions exceed the limit: as few as leave no more than the limit. */
  function Overflow(limit: nat, count: nat): (n: nat)
    ensures n <= count && count - n <= limit && (n > 0 ==> count - n == limit)
  {
    if count > limit then count - limit else 0
  }

  /** The result of the ordered query: every active row once, oldest `last_seen_at` first. */
  ghost predicate OldestFirst(rows: Table, active: seq<RowId>) {
    && (forall i, j | 0 <= i < j < |active| :: active[i] != active[j])
    && (forall id :: id in active <==> id in Active(rows))
    && (forall i, j {:trigger active[i], active[j]} | 0 <= i < j < |active| && active[i] in rows && active[j] in rows ::
          rows[active[i]].lastSeen <= rows[active[j]].lastSeen)
  }

  /** What eviction must take: exactly the overflow, and nothing younger than what stays. */
  ghost predicate OldestBeyond(limit: nat, rows: Table, victims: set<RowId>) {
    && victims <= Active(rows)
    && |victims| == Overflow(limit, |Active(rows)|)
    && forall v, r | v in victims && r in Active(rows) - victims :: rows[v].lastSeen <= rows[r].lastSeen
  }

  function ToSet(ids: seq<RowId>): set<RowId> {
    set i | 0 <= i < |ids| :: ids[i]
  }

  lemma {:induction false} DistinctSize(ids: seq<RowId>)
    requires forall i, j | 0 <= i < j < |ids| :: ids[i] != ids[j]
    ensures |ToSet(ids)| == |ids|
  {
    if ids != [] {
      var n := |ids| - 1;
      DistinctSize(ids[..n]);
      assert ToSet(ids) == ToSet(ids[..n]) + {ids[n]};
    }
  }

  lemma PrefixIds(ids: seq<RowId>, k: nat)
    requires k <= |ids| && forall i, j | 0 <= i < j < |ids| :: ids[i] != ids[j]
    ensures |ToSet(ids[..k])| == k && ToSet(ids[..k]) <= ToSet(ids)
    ensures forall i | 0 <= i < |ids| :: ids[i] in ToSet(ids[..k]) <==> i < k
  {
    DistinctSize(ids[..k]);
    forall x | x in ToSet(ids[..k]) ensures x in ToSet(ids) {
      var i :| 0 <= i < k && ids[..k][i] == x;
      assert ids[i] == x;
    }
    forall i | 0 <= i < k ensures ids[i] in ToSet(ids[..k]) {
      assert ids[..k][i] == ids[i];
    }
  }

  lemma ListsActive(rows: Table, active: seq<RowId>)
    requires OldestFirst(rows, active)
    ensures ToSet(active) == Active(rows) && |active| == |Active(rows)|
  {
    DistinctSize(active);
    assert ToSet(active) == Active(rows) by {
      forall id ensures id in ToSet(active) <==> id in active {}
    }
  }

  /** The first `overflow` entries of the ordered query are what eviction must take. */
  lemma PrefixIsOldest(limit: nat, rows: Table, active: seq<RowId>)
    requires OldestFirst(rows, active)
    ensures |active| == |Active(rows)|
    ensures OldestBeyond(limit, rows, ToSet(active[..Overflow(limit, |active|)]))
    ensures |Active(rows) - ToSet(active[..Overflow(limit, |active|)])| <= limit
  {
    var k := Overflow(limit, |active|);
    ListsActive(rows, active);
    PrefixIds(active, k);
    forall v, r | v in ToSet(active[..k]) && r in Active(rows) - ToSet(active[..k])
      ensures rows[v].lastSeen <= rows[r].lastSeen
    {
      var i :| 0 <= i < |active| && active[i] == v;
      var j :| 0 <= j < |active| && active[j] == r;
    }
  }

  lemma {:induction false} OldestRowExists(rows: Table, ids: set<RowId>)
    requires ids != {} && ids <= rows.Keys
    ensures exists id :: id in ids && forall other | other in ids :: rows[id].lastSeen <= rows[other].lastSeen
    decreases ids
  {
    var first :| first in ids;
    var rest := ids - {first};
    if rest == {} {
      assert ids == {first};
    } else {
      OldestRowExists(rows, rest);
      var best :| best in rest && forall other | other in rest :: rows[best].lastSeen <= rows[other].lastSeen;
      var id := if rows[first].lastSeen <= rows[best].lastSeen then first else best;
      assert forall other | other in ids :: other == first || other in rest;
      assert id in ids && forall other | other in ids :: rows[id].lastSeen <= rows[other].lastSeen;
    }
  }

  /** One call run alone, as a relation between the tables before and after it. */
  ghost predicate Call(limit: nat, before: Table, sid: string, now: int, reply: Reply,
                       id: RowId, victims: set<RowId>, after: Table)
  {
    match reply
    case Unauthorized =>
      sid != "" && id in before && before[id].sid == sid && before[id].revokedAt.Some? && after == before
    case Skipped =>
      && after == before
      && (sid == "" || (id in before && before[id].sid == sid && before[id].revokedAt.None?
                        && now - before[id].lastSeen < DEBOUNCE))
    case Recorded =>
      && sid != ""
      && (if Has(before, sid)
          then id in before && before[id].sid == sid && before[id].revokedAt.None?
               && now - before[id].lastSeen >= DEBOUNCE
          else id !in before)
      && OldestBeyond(limit, Touched(before, id, sid, now), victims)
      && after == RevokedAll(Touched(before, id, sid, now), victims, now)
  }

  /** Revoking one more row of the list revokes one more row of the set. */
  lemma RevokeNext(rows: Table, ids: seq<RowId>, i: nat, now: int)
    requires i < |ids|
    ensures Revoked(RevokedAll(rows, ToSet(ids[..i]), now), ids[i], now) == RevokedAll(rows, ToSet(ids[..i+1]), now)
  {
    assert ids[..i+1] == ids[..i] + [ids[i]];
    assert ToSet(ids[..i+1]) == ToSet(ids[..i]) + {ids[i]} by {
      forall x | x in ToSet(ids[..i]) ensures x in ToSet(ids[..i+1]) {
        var k :| 0 <= k < i && ids[..i][k] == x;
        assert ids[..i+1][k] == x;
      }
      assert ids[..i+1][i] == ids[i];
    }
  }

  lemma RevokedRows(rows: Table, victims: set<RowId>, now: int)
    ensures var after := RevokedAll(rows, victims, now);
            && (forall id :: id in after <==> id in rows)
            && (forall id | id in after :: after[id].sid == rows[id].sid && after[id].lastSeen == rows[id].lastSeen)
            && forall id | id in after :: after[id].revokedAt == if id in victims then Some(now) else rows[id].revokedAt
  {
  }

  lemma EvictedActive(rows: Table, victims: set<RowId>, now: int)
    ensures Active(RevokedAll(rows, victims, now)) == Active(rows) - victims
    ensures victims == {} ==> RevokedAll(rows, victims, now) == rows
  {
  }

  lemma EvictedSize(limit: nat, rows: Table, victims: set<RowId>, now: int)
    requires OldestBeyond(limit, rows, victims)
    ensures Active(RevokedAll(rows, victims, now)) == Active(rows) - victims
    ensures |Active(RevokedAll(rows, victims, now))| == if |Active(rows)| <= limit then |Active(rows)| else limit
    ensures |Active(rows)| <= limit ==> victims == {} && RevokedAll(rows, victims, now) == rows
  {
    EvictedActive(rows, victims, now);
    assert |Active(rows) - victims| == |Active(rows)| - |victims|;
  }

  lemma TouchedActive(rows: Table, id: RowId, sid: string, now: int)
    ensures Active(Touched(rows, id, sid, now)) == Active(rows) + {id}
  {
  }

  lemma TouchKeepsUnique(rows: Table, id: RowId, sid: string, now: int)
    requires UniqueSids(rows)
    requires if id in rows then rows[id].sid == sid else !Has(rows, sid)
    ensures UniqueSids(Touched(rows, id, sid, now))
  {
  }

  class SessionTracker {
    const limit: nat
    var rows: Table

    constructor (limit: nat, rows: Table)
      ensures this.limit == limit && this.rows == rows
    {
      this.limit := limit;
      this.rows := rows;
    }

    method SelectActive() returns (active: seq<RowId>)
      ensures OldestFirst(rows, active)
    {
      active := [];
      var rest := Active(rows);
      while rest != {}
        invariant rest <= Active(rows)
        invariant forall id :: id in Active(rows) <==> id in rest || id in active
        invariant forall i | 0 <= i < |active| :: active[i] in rows && active[i] !in rest
        invariant forall i, j | 0 <= i < j < |active| ::
                    active[i] != active[j] && rows[active[i]].lastSeen <= rows[active[j]].lastSeen
        invariant forall i, id | 0 <= i < |active| && id in rest :: rows[active[i]].lastSeen <= rows[id].lastSeen
        decreases rest
      {
        OldestRowExists(rows, rest);
        var next: RowId :| next in rest && forall other | other in rest :: rows[next].lastSeen <= rows[other].lastSeen;
        active := active + [next];
        rest := rest - {next};
      }
    }

    /** One `UPDATE` a row. */
    method RevokeFirst(active: seq<RowId>, overflow: nat, now: int)
      requires overflow <= |active|
      modifies this
      ensures rows == RevokedAll(old(rows), ToSet(active[..overflow]), now)
    {
      EvictedActive(rows, {}, now);
      assert ToSet(active[..0]) == {};
      for i := 0 to overflow
        invariant rows == RevokedAll(old(rows), ToSet(active[..i]), now)
      {
        RevokeNext(old(rows), active, i, now);
        rows := Revoked(rows, active[i], now);
      }
    }

    /** Read the active rows, then revoke the overflow. */
    method EvictOldest(now: int) returns (ghost victims: set<RowId>)
      modifies this
      ensures OldestBeyond(limit, old(rows), victims)
      ensures rows == RevokedAll(old(rows), victims, now)
      ensures |Active(rows)| == if |Active(old(rows))| <= limit then |Active(old(rows))| else limit
      ensures |Active(old(rows))| <= limit ==> rows == old(rows)
      ensures forall id :: id in rows <==> id in old(rows)
      ensures forall id | id in rows :: rows[id].sid == old(rows)[id].sid && rows[id].lastSeen == old(rows)[id].lastSeen
      ensures forall id | id in rows ::
                rows[id].revokedAt == if id in victims then Some(now) else old(rows)[id].revokedAt
    {
      var active := SelectActive();
      var overflow := Overflow(limit, |active|);
      victims := ToSet(active[..overflow]);
      PrefixIsOldest(limit, rows, active);
      EvictedSize(limit, rows, victims, now);
      RevokedRows(rows, victims, now);
      RevokeFirst(active, overflow, now);
    }

    /** `newId` is the key the database would give an inserted row. */
    method RecordSession(sid: string, now: int, newId: RowId)
      returns (reply: Reply, ghost id: RowId, ghost victims: set<RowId>)
      requires newId !in rows && UniqueSids(rows)
      modifies this
      ensures Call(limit, old(rows), sid, now, reply, id, victims, rows)
      ensures UniqueSids(rows)
      ensures reply == Unauthorized <==>
                sid != "" && exists r :: r in old(rows) && old(rows)[r].sid == sid && old(rows)[r].revokedAt.Some?
      ensures reply == Skipped <==>
                sid == "" || exists r :: && r in old(rows) && old(rows)[r].sid == sid && old(rows)[r].revokedAt.None?
                                         && now < old(rows)[r].lastSeen + 60_000_000
      ensures reply != Recorded ==> rows == old(rows)
      ensures reply == Recorded ==>
                var before := Active(old(rows)) + {id};
                && |Active(rows)| == (if |before| <= limit then |before| else limit)
                && (|before| <= limit ==> rows == old(rows)[id := Row(sid, now, None)])
    {
      id, victims := newId, {};
      if sid == "" {
        return Skipped, id, victims;
      }
      var target := newId;
      if Has(rows, sid) {
        target :| target in rows && rows[target].sid == sid;
        id := target;
        if rows[target].revokedAt.Some? {
          return Unauthorized, id, victims;
        }
        if now - rows[target].lastSeen < DEBOUNCE {
          return Skipped, id, victims;
        }
      }
      TouchKeepsUnique(rows, target, sid, now);
      TouchedActive(rows, target, sid, now);
      rows := Touched(rows, target, sid, now);
      victims := EvictOldest(now);
      reply := Recorded;
    }
  }
}
