/**
 Whole serial histories of one user's sessions: eviction is least-recently-used
 up to the debounce, and a revoked session stays revoked.
 */
module SessionHistory {
  import opened Options
  import opened Sessions

  /** One call with its reply, the row it concerned, the rows it evicted and the table it left. */
  datatype Visit = Visit(sid: string, now: int, reply: Reply, id: RowId, victims: set<RowId>, after: Table)

  ghost function TableAfter(h: seq<Visit>): Table {
    if h == [] then map[] else h[|h|-1].after
  }

  /** Calls one after the other, at strictly increasing times, from an empty table. */
  ghost predicate Serial(limit: nat, h: seq<Visit>)
    decreases |h|
  {
    h == [] ||
    (var before, v := h[..|h|-1], h[|h|-1];
     && Serial(limit, before)
     && (before != [] ==> before[|before|-1].now < v.now)
     && Call(limit, TableAfter(before), v.sid, v.now, v.reply, v.id, v.victims, v.after))
  }

  predicate Uses(v: Visit, id: RowId) {
    v.id == id && v.sid != "" && v.reply != Unauthorized
  }

  /** When the session of row `id` was last really used, debounced calls included. */
  function LastUse(h: seq<Visit>, id: RowId): Option<int> {
    if h == [] then None
    else if Uses(h[|h|-1], id) then Some(h[|h|-1].now)
    else LastUse(h[..|h|-1], id)
  }

  ghost predicate RowInv(h: seq<Visit>, id: RowId, row: Row) {
    && h != []
    && row.lastSeen <= h[|h|-1].now
    && (row.revokedAt.None? ==>
          && LastUse(h, id).Some?
          && row.lastSeen <= LastUse(h, id).value < row.lastSeen + DEBOUNCE
          && LastUse(h, id).value <= h[|h|-1].now)
  }

  ghost predicate HistoryInv(limit: nat, h: seq<Visit>) {
    && UniqueSids(TableAfter(h))
    && |Active(TableAfter(h))| <= limit
    && forall id | id in TableAfter(h) :: RowInv(h, id, TableAfter(h)[id])
  }

  lemma RowStep(limit: nat, h: seq<Visit>, v: Visit, id: RowId)
    requires Serial(limit, h + [v]) && HistoryInv(limit, h) && id in v.after
    ensures RowInv(h + [v], id, v.after[id])
  {
    assert (h + [v])[..|h|] == h;
    if id in TableAfter(h) {
      assert RowInv(h, id, TableAfter(h)[id]);
    }
  }

  lemma {:induction false} HistoryHolds(limit: nat, h: seq<Visit>)
    requires Serial(limit, h)
    ensures HistoryInv(limit, h)
    decreases |h|
  {
    if h != [] {
      var before, v := h[..|h|-1], h[|h|-1];
      assert h == before + [v];
      HistoryHolds(limit, before);
      forall id | id in v.after ensures RowInv(h, id, v.after[id]) {
        RowStep(limit, before, v, id);
      }
      if v.reply == Recorded {
        EvictedSize(limit, Touched(TableAfter(before), v.id, v.sid, v.now), v.victims, v.now);
      }
    }
  }

  /** After any serial history at most `limit` sessions are active. */
  lemma AtMostLimitActive(limit: nat, h: seq<Visit>)
    requires Serial(limit, h)
    ensures |Active(TableAfter(h))| <= limit
  {
    HistoryHolds(limit, h);
  }

  /**
   Nothing is evicted early: a recorded session leaves as many active as were so with it, or the
   limit if those were more, and revokes nobody while they are not; any other call changes nothing.
   */
  lemma EvictsOnlyBeyondLimit(limit: nat, h: seq<Visit>)
    requires Serial(limit, h) && h != []
    ensures var v, before := h[|h|-1], TableAfter(h[..|h|-1]);
            if v.reply == Recorded
            then var with := |Active(before) + {v.id}|;
                 && |Active(v.after)| == (if with <= limit then with else limit)
                 && (with <= limit ==> v.victims == {} && v.after == before[v.id := Row(v.sid, v.now, None)])
            else v.after == before
  {
    var v, before := h[|h|-1], TableAfter(h[..|h|-1]);
    if v.reply == Recorded {
      TouchedActive(before, v.id, v.sid, v.now);
      EvictedSize(limit, Touched(before, v.id, v.sid, v.now), v.victims, v.now);
      assert v.victims == {} ==> RevokedAll(Touched(before, v.id, v.sid, v.now), {}, v.now)
                                 == Touched(before, v.id, v.sid, v.now);
    }
  }

  /**
   Approximate LRU: an evicted session was really used less than a minute after
   every session that stays, and the session just recorded always stays.
   */
  lemma EvictsNearlyOldest(limit: nat, h: seq<Visit>, victim: RowId, kept: RowId)
    requires Serial(limit, h) && h != [] && h[|h|-1].reply == Recorded
    requires victim in h[|h|-1].victims && kept in Active(TableAfter(h))
    ensures victim != h[|h|-1].id
    ensures LastUse(h, victim).Some? && LastUse(h, kept).Some?
    ensures LastUse(h, victim).value < LastUse(h, kept).value + DEBOUNCE
  {
    var before, v := h[..|h|-1], h[|h|-1];
    HistoryHolds(limit, before);
    HistoryHolds(limit, h);
    var touched := Touched(TableAfter(before), v.id, v.sid, v.now);
    EvictedSize(limit, touched, v.victims, v.now);
    assert touched[victim].lastSeen <= touched[kept].lastSeen;
    assert RowInv(h, kept, TableAfter(h)[kept]);
    if kept != v.id {
      assert RowInv(before, kept, TableAfter(before)[kept]);
    }
    if victim != v.id {
      assert RowInv(before, victim, TableAfter(before)[victim]);
    }
  }

  lemma RecordedStays(limit: nat, h: seq<Visit>)
    requires limit > 0 && Serial(limit, h) && h != [] && h[|h|-1].reply == Recorded
    ensures h[|h|-1].id in Active(TableAfter(h))
  {
    var v := h[|h|-1];
    RecordedLeaves(limit, TableAfter(h[..|h|-1]), v);
    var kept :| kept in Active(v.after);
    if v.id in v.victims {
      EvictsNearlyOldest(limit, h, v.id, kept);
    }
  }

  lemma RecordedLeaves(limit: nat, before: Table, v: Visit)
    requires limit > 0 && v.reply == Recorded
    requires OldestBeyond(limit, Touched(before, v.id, v.sid, v.now), v.victims)
    requires v.after == RevokedAll(Touched(before, v.id, v.sid, v.now), v.victims, v.now)
    ensures Active(v.after) == Active(before) + {v.id} - v.victims && Active(v.after) != {}
  {
    TouchedActive(before, v.id, v.sid, v.now);
    EvictedSize(limit, Touched(before, v.id, v.sid, v.now), v.victims, v.now);
    assert v.id in Active(before) + {v.id};
  }

  /** Once revoked, a row never changes again: every later call leaves it as it is. */
  lemma {:induction false} RevokedStaysRevoked(limit: nat, h: seq<Visit>, k: nat, id: RowId)
    requires Serial(limit, h) && k <= |h|
    requires id in TableAfter(h[..k]) && TableAfter(h[..k])[id].revokedAt.Some?
    ensures id in TableAfter(h) && TableAfter(h)[id] == TableAfter(h[..k])[id]
    decreases |h|
  {
    if k == |h| {
      assert h[..k] == h;
    } else {
      var before, v := h[..|h|-1], h[|h|-1];
      assert before[..k] == h[..k];
      RevokedStaysRevoked(limit, before, k, id);
      HistoryHolds(limit, before);
      if v.reply == Recorded {
        assert v.id != id;
      }
    }
  }

  /** So every later call with an evicted session's id is refused with 401. */
  lemma EvictedIsRefused(limit: nat, h: seq<Visit>, k: nat, id: RowId)
    requires Serial(limit, h) && k < |h|
    requires id in TableAfter(h[..k]) && TableAfter(h[..k])[id].revokedAt.Some?
    requires h[|h|-1].sid == TableAfter(h[..k])[id].sid != ""
    ensures h[|h|-1].reply == Unauthorized
  {
    var before := h[..|h|-1];
    assert before[..k] == h[..k];
    RevokedStaysRevoked(limit, before, k, id);
    HistoryHolds(limit, before);
  }
}
