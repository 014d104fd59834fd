/**
 Versioned patches of one tenant row: a read, a compare-and-set on the version,
 then an audit record, interleaved among any number of superadmins.
 */
module TenantPatch {
  import opened Options

  type Fields = map<string, string>

  datatype Row = Row(fields: Fields, version: int)

  type OpId = string

  /** `op` is the operation id the client may send to make a repeated request recognisable. */
  datatype Request = Request(patch: Fields, expected: Option<int>, dryRun: bool, op: Option<OpId>)

  /** One audit record: the row read, the request, the row written. */
  datatype Win = Win(before: Row, request: Request, after: Row)

  datatype Reply = Patched(after: Row) | VersionConflict | NothingToUpdate | DryRun

  /** `before.get("version") or 1`: zero counts as missing. */
  function BaseVersion(before: Row): int {
    if before.version == 0 then 1 else before.version
  }

  /** The row the winning UPDATE leaves when it matched `row`. */
  function Applied(row: Row, before: Row, patch: Fields): Row {
    Row(row.fields + patch, BaseVersion(before) + 1)
  }

  /** The verdict before any write: None means go on to the compare-and-set. */
  function Early(before: Row, request: Request): Option<Reply> {
    if request.expected.Some? && before.version != request.expected.value then Some(VersionConflict)
    else if request.patch == map[] then Some(NothingToUpdate)
    else if request.dryRun then Some(DryRun)
    else None
  }

  /** The operation id is on record already: the record is taken for a replay and left out. */
  predicate Replays(recorded: set<OpId>, op: Option<OpId>) {
    op.Some? && op.value in recorded
  }

  function Ids(op: Option<OpId>): set<OpId> {
    if op.Some? then {op.value} else {}
  }

  class TenantStore {
    var row: Row
    var audit: seq<Win>
    /** The operation ids of the whole audit log. */
    var recorded: set<OpId>

    constructor (row: Row, recorded: set<OpId>)
      ensures this.row == row && audit == [] && this.recorded == recorded
    {
      this.row, audit, this.recorded := row, [], recorded;
    }

    /** An insert that fails is swallowed. */
    method RecordOperation(win: Win, inserted: bool)
      modifies `audit, `recorded
      ensures if (win.request.op.Some? && win.request.op.value in old(recorded)) || !inserted
              then audit == old(audit) && recorded == old(recorded)
              else && audit == old(audit) + [win]
                   && forall id :: id in recorded <==> id in old(recorded) || win.request.op == Some(id)
      ensures if Replays(old(recorded), win.request.op) || !inserted then recorded == old(recorded)
              else recorded == old(recorded) + Ids(win.request.op)
    {
      var op := win.request.op;
      if op.Some? && op.value in recorded {
        return;
      }
      if inserted {
        audit := audit + [win];
        recorded := recorded + Ids(op);
      }
    }

    /** `UPDATE ... WHERE version = base`. */
    method CompareAndSet(before: Row, patch: Fields) returns (matched: bool)
      modifies this`row
      ensures matched <==> old(row).version == BaseVersion(before)
      ensures row == if matched then Applied(old(row), before, patch) else old(row)
      ensures matched ==>
                && row.version == old(row).version + 1
                && (forall name :: name in row.fields <==> name in old(row).fields || name in patch)
                && forall name | name in row.fields ::
                     row.fields[name] == if name in patch then patch[name] else old(row).fields[name]
      ensures matched ==> row.version != BaseVersion(before)
    {
      matched := row.version == BaseVersion(before);
      if matched {
        row := Applied(row, before, patch);
      }
    }

    /** One request run alone: the four refusals in order, else the patch. */
    method PatchTenant(request: Request, inserted: bool) returns (reply: Reply)
      modifies this
      ensures request.expected.Some? && old(row).version != request.expected.value ==> reply == VersionConflict
      ensures request.expected == None || old(row).version == request.expected.value ==>
                && (request.patch == map[] ==> reply == NothingToUpdate)
                && (request.patch != map[] && request.dryRun ==> reply == DryRun)
                && (request.patch != map[] && !request.dryRun ==>
                      if old(row).version == 0 then reply == VersionConflict else reply.Patched?)
      ensures reply.Patched? ==>
                && row == reply.after == Row(old(row).fields + request.patch, old(row).version + 1)
                && (if inserted && !(request.op.Some? && request.op.value in old(recorded))
                    then audit == old(audit) + [Win(old(row), request, row)]
                    else audit == old(audit) && recorded == old(recorded))
      ensures !reply.Patched? ==> row == old(row) && audit == old(audit) && recorded == old(recorded)
    {
      var before := row;
      var early := Early(before, request);
      if early.Some? {
        return early.value;
      }
      var matched := CompareAndSet(before, request.patch);
      if !matched {
        return VersionConflict;
      }
      RecordOperation(Win(before, request, row), inserted);
      reply := Patched(row);
    }
  }

  // ---- Interleaved requests ----

  type CallId = nat

  /** Recording: about to look the operation id up. Inserting: not found, about to insert. */
  datatype Pc =
    | Swapping(before: Row, request: Request)
    | Recording(win: Win)
    | Inserting(win: Win)

  /**
   `wins` lists the matched updates in order, `lost` those whose request ended without a record,
   `recorded` the operation ids in the log.
   */
  datatype State = State(
    row: Row,
    calls: map<CallId, Pc>,
    wins: seq<Win>,
    audit: seq<Win>,
    lost: set<Win>,
    recorded: set<OpId>)

  datatype Event =
    | Read(c: CallId, request: Request)
    | Swap(c: CallId)
    | LookUp(c: CallId)
    | Insert(c: CallId, works: bool)
    | Crash(c: CallId)
    | Foreign(op: OpId)

  predicate Enabled(s: State, e: Event) {
    match e
    case Read(c, _) => c !in s.calls
    case Swap(c) => c in s.calls && s.calls[c].Swapping?
    case LookUp(c) => c in s.calls && s.calls[c].Recording?
    case Insert(c, _) => c in s.calls && s.calls[c].Inserting?
    case Crash(c) => c in s.calls
    case Foreign(_) => true
  }

  /** The request ends without its record: `win` stays unrecorded. */
  function Unrecorded(s: State, c: CallId): State
    requires c in s.calls && !s.calls[c].Swapping?
  {
    s.(calls := s.calls - {c}, lost := s.lost + {s.calls[c].win})
  }

  function Apply(s: State, e: Event): State
    requires Enabled(s, e)
  {
    match e
    case Read(c, request) =>
      if Early(s.row, request).Some? then s
      else s.(calls := s.calls[c := Swapping(s.row, request)])
    case Swap(c) =>
      var pc := s.calls[c];
      if s.row.version == BaseVersion(pc.before) then
        var win := Win(pc.before, pc.request, Applied(s.row, pc.before, pc.request.patch));
        s.(row := win.after, calls := s.calls[c := Recording(win)], wins := s.wins + [win])
      else s.(calls := s.calls - {c})
    case LookUp(c) =>
      if Replays(s.recorded, s.calls[c].win.request.op) then Unrecorded(s, c)
      else s.(calls := s.calls[c := Inserting(s.calls[c].win)])
    case Insert(c, works) =>
      if !works then Unrecorded(s, c)
      else
        var win := s.calls[c].win;
        s.(calls := s.calls - {c}, audit := s.audit + [win], recorded := s.recorded + Ids(win.request.op))
    case Crash(c) => if s.calls[c].Swapping? then s.(calls := s.calls - {c}) else Unrecorded(s, c)
    case Foreign(op) => s.(recorded := s.recorded + {op})
  }

  ghost predicate Legal(row0: Row, es: seq<Event>)
    decreases |es|, 0
  {
    es == [] || (Legal(row0, es[..|es|-1]) && Enabled(Exec(row0, es[..|es|-1]), es[|es|-1]))
  }

  ghost function Exec(row0: Row, es: seq<Event>): State
    requires Legal(row0, es)
    decreases |es|, 1
  {
    if es == [] then State(row0, map[], [], [], {}, {}) else Apply(Exec(row0, es[..|es|-1]), es[|es|-1])
  }

  /** The row after the first `k` wins. */
  function RowAt(row0: Row, wins: seq<Win>, k: nat): Row
    requires k <= |wins|
  {
    if k == 0 then row0 else wins[k-1].after
  }

  /** Win k read exactly the row the previous one left, and changed just its own fields. */
  ghost predicate Link(row0: Row, wins: seq<Win>, k: nat)
    requires k < |wins|
  {
    && wins[k].before == RowAt(row0, wins, k)
    && wins[k].after == Row(wins[k].before.fields + wins[k].request.patch, wins[k].before.version + 1)
  }

  ghost predicate Chain(row0: Row, wins: seq<Win>) {
    forall k: nat | k < |wins| :: Link(row0, wins, k)
  }

  ghost predicate WasCurrent(row0: Row, wins: seq<Win>, k: nat, r: Row) {
    k <= |wins| && RowAt(row0, wins, k) == r
  }

  /** Row `r` was the tenant's row at some point of the history, and if its version is zero it still is. */
  ghost predicate Known(row0: Row, s: State, r: Row) {
    && (exists k: nat :: WasCurrent(row0, s.wins, k, r))
    && (r.version == 0 ==> s.row == r)
  }

  ghost predicate HistoryInv(row0: Row, s: State) {
    && Chain(row0, s.wins)
    && s.row == RowAt(row0, s.wins, |s.wins|)
    && forall c | c in s.calls && s.calls[c].Swapping? :: Known(row0, s, s.calls[c].before)
  }

  lemma {:induction false} VersionsCount(row0: Row, wins: seq<Win>, k: nat)
    requires Chain(row0, wins) && k <= |wins|
    ensures RowAt(row0, wins, k).version == row0.version + k
    decreases k
  {
    if k > 0 {
      VersionsCount(row0, wins, k - 1);
      assert Link(row0, wins, k - 1);
    }
  }

  /** Compare-and-set succeeds exactly when the row is still the row that was read. */
  lemma MatchIffUnchanged(row0: Row, s: State, before: Row)
    requires HistoryInv(row0, s) && Known(row0, s, before)
    ensures s.row.version == BaseVersion(before) <==> s.row == before && before.version != 0
  {
    var k: nat :| WasCurrent(row0, s.wins, k, before);
    VersionsCount(row0, s.wins, k);
    VersionsCount(row0, s.wins, |s.wins|);
  }

  lemma KnownLater(row0: Row, s: State, win: Win, r: Row, s': State)
    requires Known(row0, s, r) && s.row.version != 0
    requires s'.wins == s.wins + [win]
    ensures Known(row0, s', r)
  {
    var k: nat :| WasCurrent(row0, s.wins, k, r);
    assert WasCurrent(row0, s'.wins, k, r);
  }

  lemma ChainGrows(row0: Row, wins: seq<Win>, win: Win)
    requires Chain(row0, wins) && win.before == RowAt(row0, wins, |wins|)
    requires win.after == Row(win.before.fields + win.request.patch, win.before.version + 1)
    ensures Chain(row0, wins + [win])
  {
    forall k: nat | k < |wins| + 1 ensures Link(row0, wins + [win], k) {
      assert k < |wins| ==> Link(row0, wins, k);
    }
  }

  lemma SwapStep(row0: Row, s: State, c: CallId)
    requires HistoryInv(row0, s) && Enabled(s, Swap(c))
    ensures HistoryInv(row0, Apply(s, Swap(c)))
  {
    var pc, s' := s.calls[c], Apply(s, Swap(c));
    MatchIffUnchanged(row0, s, pc.before);
    if s.row.version == BaseVersion(pc.before) {
      var win := s'.wins[|s.wins|];
      ChainGrows(row0, s.wins, win);
      forall d | d in s'.calls && s'.calls[d].Swapping? ensures Known(row0, s', s'.calls[d].before) {
        KnownLater(row0, s, win, s.calls[d].before, s');
      }
    } else {
      assert forall d | d in s'.calls && s'.calls[d].Swapping? :: Known(row0, s, s'.calls[d].before);
    }
  }

  lemma {:induction false} HistoryHolds(row0: Row, es: seq<Event>)
    requires Legal(row0, es)
    ensures HistoryInv(row0, Exec(row0, es))
    decreases |es|
  {
    if es != [] {
      var s, e := Exec(row0, es[..|es|-1]), es[|es|-1];
      HistoryHolds(row0, es[..|es|-1]);
      if e.Swap? {
        SwapStep(row0, s, e.c);
      } else {
        var s' := Exec(row0, es);
        assert WasCurrent(row0, s.wins, |s.wins|, s.row);
        forall d | d in s'.calls && s'.calls[d].Swapping? ensures Known(row0, s', s'.calls[d].before) {
          if d in s.calls {
            assert Known(row0, s, s.calls[d].before);
          }
        }
      }
    }
  }

  function FoldPatches(fields: Fields, wins: seq<Win>): Fields {
    if wins == [] then fields else FoldPatches(fields, wins[..|wins|-1]) + wins[|wins|-1].request.patch
  }

  lemma {:induction false} ChainFolds(row0: Row, wins: seq<Win>)
    requires Chain(row0, wins)
    ensures RowAt(row0, wins, |wins|).fields == FoldPatches(row0.fields, wins)
    decreases |wins|
  {
    if wins != [] {
      var shorter := wins[..|wins|-1];
      forall k: nat | k < |shorter| ensures Link(row0, shorter, k) {
        assert Link(row0, wins, k);
      }
      ChainFolds(row0, shorter);
      assert Link(row0, wins, |wins|-1);
    }
  }

  /**
   Serialisability: whatever the interleaving, the wins in version order form one
   chain of read-modify-write steps, and the row is the fold of their patches.
   */
  lemma PatchesSerialise(row0: Row, es: seq<Event>)
    requires Legal(row0, es)
    ensures var s := Exec(row0, es);
            && Chain(row0, s.wins)
            && s.row == Row(FoldPatches(row0.fields, s.wins), row0.version + |s.wins|)
            && (forall k | 0 <= k < |s.wins| :: s.wins[k].before.version == row0.version + k)
  {
    var s := Exec(row0, es);
    HistoryHolds(row0, es);
    ChainFolds(row0, s.wins);
    VersionsCount(row0, s.wins, |s.wins|);
    forall k | 0 <= k < |s.wins| ensures s.wins[k].before.version == row0.version + k {
      VersionsCount(row0, s.wins, k);
      assert Link(row0, s.wins, k);
    }
  }

  /** A version determines the row: any two rows that were ever current agree if their versions do. */
  lemma VersionDeterminesRow(row0: Row, es: seq<Event>, i: nat, j: nat)
    requires Legal(row0, es) && i <= |Exec(row0, es).wins| && j <= |Exec(row0, es).wins|
    requires RowAt(row0, Exec(row0, es).wins, i).version == RowAt(row0, Exec(row0, es).wins, j).version
    ensures i == j
  {
    HistoryHolds(row0, es);
    VersionsCount(row0, Exec(row0, es).wins, i);
    VersionsCount(row0, Exec(row0, es).wins, j);
  }

  /** What a request still holds is a row that was current when it read: the one its version names. */
  lemma SnapshotWasCurrent(row0: Row, es: seq<Event>, c: CallId)
    requires Legal(row0, es) && c in Exec(row0, es).calls && Exec(row0, es).calls[c].Swapping?
    ensures var s := Exec(row0, es);
            var k := s.calls[c].before.version - row0.version;
            0 <= k <= |s.wins| && RowAt(row0, s.wins, k) == s.calls[c].before
  {
    var s := Exec(row0, es);
    HistoryHolds(row0, es);
    var k: nat :| WasCurrent(row0, s.wins, k, s.calls[c].before);
    VersionsCount(row0, s.wins, k);
  }

  /** The request passes the checks on row `before`: it wants that version or any, and to change something for real. */
  predicate Asked(before: Row, request: Request) {
    && (request.expected == None || request.expected == Some(before.version))
    && request.patch != map[] && !request.dryRun
  }

  ghost predicate AskedInv(s: State) {
    && (forall k | 0 <= k < |s.wins| :: Asked(s.wins[k].before, s.wins[k].request))
    && forall c | c in s.calls && s.calls[c].Swapping? :: Asked(s.calls[c].before, s.calls[c].request)
  }

  lemma {:induction false} AskedHolds(row0: Row, es: seq<Event>)
    requires Legal(row0, es)
    ensures AskedInv(Exec(row0, es))
    decreases |es|
  {
    if es != [] {
      AskedHolds(row0, es[..|es|-1]);
    }
  }

  /** In every run a win is what its request asked for: no dry run writes, an expected version is the one replaced. */
  lemma WinsWereAsked(row0: Row, es: seq<Event>, k: nat)
    requires Legal(row0, es) && k < |Exec(row0, es).wins|
    ensures var win := Exec(row0, es).wins[k];
            && !win.request.dryRun && win.request.patch != map[]
            && (win.request.expected == None || win.request.expected == Some(row0.version + k))
  {
    AskedHolds(row0, es);
    PatchesSerialise(row0, es);
  }

  /** A request loses exactly when some other patch won after its read, or the stored version is zero. */
  lemma LosesIffOvertaken(row0: Row, es: seq<Event>, c: CallId)
    requires Legal(row0, es) && Enabled(Exec(row0, es), Swap(c))
    ensures var s := Exec(row0, es);
            var before := s.calls[c].before;
            c !in Apply(s, Swap(c)).calls <==> s.row != before || before.version == 0
  {
    HistoryHolds(row0, es);
    MatchIffUnchanged(row0, Exec(row0, es), Exec(row0, es).calls[c].before);
  }

  /** The record's two steps, with nobody between them. */
  lemma RecordIsASoloRun(s: State, c: CallId, works: bool)
    requires c in s.calls && s.calls[c].Recording?
    ensures var win := s.calls[c].win;
            var op := win.request.op;
            var s1 := Apply(s, LookUp(c));
            if Replays(s.recorded, op) then s1 == s.(calls := s.calls - {c}, lost := s.lost + {win})
            else
              && Enabled(s1, Insert(c, works))
              && Apply(s1, Insert(c, works)) ==
                 if works then s.(calls := s.calls - {c}, audit := s.audit + [win], recorded := s.recorded + Ids(op))
                 else s.(calls := s.calls - {c}, lost := s.lost + {win})
  {
    assert s.calls[c := Inserting(s.calls[c].win)] - {c} == s.calls - {c};
  }

  /** The read and the compare-and-set, with nobody between them; RecordIsASoloRun goes on from there. */
  lemma PatchIsASoloRun(s: State, c: CallId, request: Request)
    requires c !in s.calls
    ensures var s1 := Apply(s, Read(c, request));
            if Early(s.row, request).Some? then s1 == s
            else
              && Enabled(s1, Swap(c))
              && var s2 := Apply(s1, Swap(c));
                 if s.row.version == 0 then s2 == s
                 else
                   var after := Row(s.row.fields + request.patch, s.row.version + 1);
                   var win := Win(s.row, request, after);
                   s2 == s.(row := after, calls := s.calls[c := Recording(win)], wins := s.wins + [win])
  {
    if Early(s.row, request).None? {
      var s1 := Apply(s, Read(c, request));
      var win := Win(s.row, request, Row(s.row.fields + request.patch, s.row.version + 1));
      assert s1.calls - {c} == s.calls;
      assert s1.calls[c := Recording(win)] == s.calls[c := Recording(win)];
    }
  }

  // ---- The audit trail ----

  predicate Pending(pc: Pc, w: Win) {
    !pc.Swapping? && pc.win == w
  }

  /** Win `w` is recorded, about to be, or its request ended without the record. */
  ghost predicate Accounted(s: State, w: Win) {
    w in s.audit || w in s.lost || exists c | c in s.calls :: Pending(s.calls[c], w)
  }

  /** The records, the wins without one and the wins still to be recorded are apart. */
  ghost predicate Apart(s: State) {
    && (forall i, j | 0 <= i < j < |s.audit| :: s.audit[i] != s.audit[j])
    && (forall w | w in s.audit || w in s.lost :: w in s.wins)
    && (forall w | w in s.audit :: w !in s.lost)
    && (forall c | c in s.calls && !s.calls[c].Swapping? ::
          s.calls[c].win in s.wins && s.calls[c].win !in s.audit && s.calls[c].win !in s.lost)
    && (forall c, d | c in s.calls && d in s.calls && c != d && !s.calls[c].Swapping? && !s.calls[d].Swapping? ::
          s.calls[c].win != s.calls[d].win)
  }

  ghost predicate AuditInv(s: State) {
    Apart(s) && forall w | w in s.wins :: Accounted(s, w)
  }

  lemma UnrecordedApart(s: State, c: CallId)
    requires Apart(s) && c in s.calls && !s.calls[c].Swapping?
    ensures Apart(Unrecorded(s, c))
  {
  }

  lemma InsertApart(s: State, c: CallId)
    requires Apart(s) && Enabled(s, Insert(c, true))
    ensures Apart(Apply(s, Insert(c, true)))
  {
    var audit' := s.audit + [s.calls[c].win];
    forall i, j | 0 <= i < j < |audit'| ensures audit'[i] != audit'[j] {
      assert s.audit[i] in s.audit;
    }
  }

  lemma SwapApart(row0: Row, s: State, c: CallId)
    requires HistoryInv(row0, s) && Apart(s) && Enabled(s, Swap(c))
    ensures Apart(Apply(s, Swap(c)))
  {
    if s.row.version == BaseVersion(s.calls[c].before) {
      NewWinIsNew(row0, s, c);
    }
  }

  lemma StepApart(row0: Row, s: State, e: Event)
    requires HistoryInv(row0, s) && Apart(s) && Enabled(s, e)
    ensures Apart(Apply(s, e))
  {
    match e
    case Swap(c) => SwapApart(row0, s, c);
    case LookUp(c) => UnrecordedApart(s, c);
    case Insert(c, works) => if works { InsertApart(s, c); } else { UnrecordedApart(s, c); }
    case Crash(c) => if !s.calls[c].Swapping? { UnrecordedApart(s, c); }
    case _ =>
  }

  lemma AccountedStep(s: State, e: Event, w: Win)
    requires Enabled(s, e) && w in Apply(s, e).wins && (w in s.wins ==> Accounted(s, w))
    ensures Accounted(Apply(s, e), w)
  {
    var s' := Apply(s, e);
    if w !in s.wins {
      assert Pending(s'.calls[e.c], w);
    } else if w !in s.audit && w !in s.lost {
      var c :| c in s.calls && Pending(s.calls[c], w);
      if c in s'.calls {
        assert Pending(s'.calls[c], w);
      }
    }
  }

  lemma AuditStep(row0: Row, s: State, e: Event)
    requires HistoryInv(row0, s) && AuditInv(s) && Enabled(s, e)
    ensures AuditInv(Apply(s, e))
  {
    StepApart(row0, s, e);
    forall w | w in Apply(s, e).wins ensures Accounted(Apply(s, e), w) {
      AccountedStep(s, e, w);
    }
  }

  /** A win carries a version nobody won before. */
  lemma NewWinIsNew(row0: Row, s: State, c: CallId)
    requires HistoryInv(row0, s) && Enabled(s, Swap(c)) && s.row.version == BaseVersion(s.calls[c].before)
    ensures Apply(s, Swap(c)).calls[c].win !in s.wins
  {
    MatchIffUnchanged(row0, s, s.calls[c].before);
    var win := Apply(s, Swap(c)).calls[c].win;
    VersionsCount(row0, s.wins, |s.wins|);
    if win in s.wins {
      var k :| 0 <= k < |s.wins| && s.wins[k] == win;
      VersionsCount(row0, s.wins, k + 1);
    }
  }

  lemma {:induction false} AuditHolds(row0: Row, es: seq<Event>)
    requires Legal(row0, es)
    ensures AuditInv(Exec(row0, es))
    decreases |es|
  {
    if es != [] {
      AuditHolds(row0, es[..|es|-1]);
      HistoryHolds(row0, es[..|es|-1]);
      AuditStep(row0, Exec(row0, es[..|es|-1]), es[|es|-1]);
    }
  }

  /** At any time, a version is recorded at most once, and a record is a win. */
  lemma AuditedOnce(row0: Row, es: seq<Event>, i: nat, j: nat)
    requires Legal(row0, es) && i < |Exec(row0, es).audit| && j < |Exec(row0, es).audit|
    requires Exec(row0, es).audit[i].after.version == Exec(row0, es).audit[j].after.version
    ensures i == j && Exec(row0, es).audit[i] in Exec(row0, es).wins
  {
    var s := Exec(row0, es);
    HistoryHolds(row0, es);
    AuditHolds(row0, es);
    assert s.audit[i] in s.wins && s.audit[j] in s.wins by {
      assert s.audit[i] in s.audit && s.audit[j] in s.audit;
    }
    var p :| 0 <= p < |s.wins| && s.wins[p] == s.audit[i];
    var q :| 0 <= q < |s.wins| && s.wins[q] == s.audit[j];
    VersionsCount(row0, s.wins, p + 1);
    VersionsCount(row0, s.wins, q + 1);
  }

  /** Event `e` ends a winning request without its record: a death, a failed insert, or an operation id on record. */
  predicate Skips(s: State, e: Event)
    requires Enabled(s, e)
  {
    match e
    case LookUp(c) => Replays(s.recorded, s.calls[c].win.request.op)
    case Insert(_, works) => !works
    case Crash(c) => !s.calls[c].Swapping?
    case _ => false
  }

  ghost predicate NoSkip(row0: Row, es: seq<Event>)
    requires Legal(row0, es)
    decreases |es|
  {
    es == [] || (NoSkip(row0, es[..|es|-1]) && !Skips(Exec(row0, es[..|es|-1]), es[|es|-1]))
  }

  lemma {:induction false} LostIffSkipped(row0: Row, es: seq<Event>)
    requires Legal(row0, es)
    ensures Exec(row0, es).lost == {} <==> NoSkip(row0, es)
    decreases |es|
  {
    if es != [] {
      LostIffSkipped(row0, es[..|es|-1]);
    }
  }

  ghost predicate Complete(s: State) {
    forall k | 0 <= k < |s.wins| :: s.wins[k] in s.audit
  }

  /**
   Once every request has finished, each version's record is there if and only if no winning
   request died while recording, failed to insert, or sent an operation id that was on record.
   */
  lemma CompleteIffNoSkip(row0: Row, es: seq<Event>)
    requires Legal(row0, es) && Exec(row0, es).calls == map[]
    ensures Complete(Exec(row0, es)) <==> NoSkip(row0, es)
  {
    var s := Exec(row0, es);
    AuditHolds(row0, es);
    LostIffSkipped(row0, es);
    forall k | 0 <= k < |s.wins| && s.lost == {} ensures s.wins[k] in s.audit {
      assert s.wins[k] in s.wins;
      assert Accounted(s, s.wins[k]);
    }
    if s.lost != {} {
      var w :| w in s.lost;
      assert w in s.wins && w !in s.audit;
    }
  }

  /** Each record starts from the row the record of the version before it left, and its version follows that one's. */
  lemma AuditIsUnbroken(row0: Row, es: seq<Event>, k: nat)
    requires Legal(row0, es) && k < |Exec(row0, es).wins|
    ensures var wins := Exec(row0, es).wins;
            && wins[k].after.version == row0.version + k + 1
            && wins[k].before == (if k == 0 then row0 else wins[k-1].after)
    ensures Exec(row0, es).calls == map[] && NoSkip(row0, es) ==> Exec(row0, es).wins[k] in Exec(row0, es).audit
  {
    HistoryHolds(row0, es);
    VersionsCount(row0, Exec(row0, es).wins, k + 1);
    assert Link(row0, Exec(row0, es).wins, k);
    if Exec(row0, es).calls == map[] {
      CompleteIffNoSkip(row0, es);
    }
  }

  lemma Extend(row0: Row, es: seq<Event>, e: Event) returns (es': seq<Event>)
    requires Legal(row0, es) && Enabled(Exec(row0, es), e)
    ensures es' == es + [e] && Legal(row0, es') && Exec(row0, es') == Apply(Exec(row0, es), e)
  {
    es' := es + [e];
    assert es'[..|es'|-1] == es;
  }

  /** One patch up to its win. */
  lemma OneWin(row0: Row, before: seq<Event>, patch: Fields, op: OpId, recorded: set<OpId>)
    returns (es: seq<Event>, win: Win)
    requires row0.version != 0 && patch != map[]
    requires Legal(row0, before) && Exec(row0, before) == State(row0, map[], [], [], {}, recorded)
    ensures es == before + [Read(0, Request(patch, None, false, Some(op)))] + [Swap(0)] && Legal(row0, es)
    ensures win.after == Row(row0.fields + patch, row0.version + 1) && win.request.op == Some(op)
    ensures Exec(row0, es) == State(win.after, map[0 := Recording(win)], [win], [], {}, recorded)
  {
    var request := Request(patch, None, false, Some(op));
    PatchIsASoloRun(Exec(row0, before), 0, request);
    es := Extend(row0, before, Read(0, request));
    es := Extend(row0, es, Swap(0));
    win := Win(row0, request, Row(row0.fields + patch, row0.version + 1));
  }

  /** All that happened is one patch, answered, nobody dying, and there is no record of it. */
  ghost predicate Silent(row0: Row, es: seq<Event>, patch: Fields) {
    && Legal(row0, es) && (forall i | 0 <= i < |es| :: !es[i].Crash?)
    && Exec(row0, es).calls == map[] && Exec(row0, es).audit == [] && |Exec(row0, es).wins| == 1
    && Exec(row0, es).row == Row(row0.fields + patch, row0.version + 1)
  }

  /** Its insert fails. */
  lemma FailedInsertIsSilent(row0: Row, patch: Fields, op: OpId) returns (es: seq<Event>)
    requires row0.version != 0 && patch != map[]
    ensures Silent(row0, es, patch)
  {
    var win: Win;
    es, win := OneWin(row0, [], patch, op, {});
    RecordIsASoloRun(Exec(row0, es), 0, false);
    es := Extend(row0, es, LookUp(0));
    es := Extend(row0, es, Insert(0, false));
    assert Exec(row0, es) == State(win.after, map[], [win], [], {win}, {});
  }

  /** Its operation id is on record, from any action. */
  lemma ReusedIdIsSilent(row0: Row, patch: Fields, op: OpId) returns (es: seq<Event>)
    requires row0.version != 0 && patch != map[]
    ensures Silent(row0, es, patch)
  {
    var win: Win;
    es := Extend(row0, [], Foreign(op));
    es, win := OneWin(row0, es, patch, op, {op});
    RecordIsASoloRun(Exec(row0, es), 0, true);
    es := Extend(row0, es, LookUp(0));
    assert Exec(row0, es) == State(win.after, map[], [win], [], {win}, {op});
  }

  lemma SilentIsIncomplete(row0: Row, es: seq<Event>, patch: Fields)
    requires Silent(row0, es, patch)
    ensures !Complete(Exec(row0, es))
  {
    assert Exec(row0, es).wins[0] !in Exec(row0, es).audit;
  }
}
