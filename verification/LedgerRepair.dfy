/**
 What the batched auto-fix achieves over any number of runs: one run's exact effect,
 the drain bound and the stall condition of the LIMIT-before-filter query, and the
 agreement of batched repair with one unlimited pass.
 */
module LedgerRepair {
  import opened Wrappers
  import opened Reconciliation

  // ---------------------------------------------------------------- one run

  /** `rows` are distinct missing requests, as any batch is. */
  ghost predicate MissingRows(t: Tables, rows: seq<Uuid>) {
    Distinct(rows) && forall i :: 0 <= i < |rows| ==> rows[i] in Missing(t)
  }

  lemma HasUsageAppend(ledger: seq<LedgerEntry>, e: LedgerEntry, id: Uuid)
    ensures HasUsage(ledger + [e], id) <==> HasUsage(ledger, id) || IsUsageOf(e, id)
  {
    if HasUsage(ledger, id) {
      var i :| 0 <= i < |ledger| && IsUsageOf(ledger[i], id);
      assert (ledger + [e])[i] == ledger[i];
    }
    assert (ledger + [e])[|ledger|] == e;
  }

  lemma FixOneEffect(t: Tables, yearOf: int -> int, id: Uuid)
    requires ValidTables(t) && id in Missing(t)
    ensures ValidTables(FixOne(t, yearOf, id))
    ensures Missing(FixOne(t, yearOf, id)) == Missing(t) - (if Mapped(t.requests[id]) then {id} else {})
    ensures Orphans(FixOne(t, yearOf, id)) == Orphans(t)
    ensures Reported(FixOne(t, yearOf, id)) == Reported(t) - (if Mapped(t.requests[id]) then {id} else {})
  {
    var t' := FixOne(t, yearOf, id);
    if Mapped(t.requests[id]) {
      var e := t'.ledger[|t.ledger|];
      forall r: Uuid ensures HasUsage(t'.ledger, r) <==> HasUsage(t.ledger, r) || r == id {
        HasUsageAppend(t.ledger, e, r);
      }
      assert !IsOrphan(t', e);
      assert forall x :: x in t'.ledger <==> x in t.ledger || x == e;
      assert forall x :: IsOrphan(t', x) <==> IsOrphan(t, x);
    }
  }

  ghost predicate FixedRows(t: Tables, t': Tables, inserted: set<Uuid>) {
    && ValidTables(t')
    && t.ledger <= t'.ledger
    && |t'.ledger| == |t.ledger| + |inserted|
    && Missing(t') == Missing(t) - inserted
    && Reported(t') == Reported(t) - inserted
    && Orphans(t') == Orphans(t)
  }

  lemma FixedOneMore(t: Tables, mid: Tables, yearOf: int -> int, inserted: set<Uuid>, id: Uuid)
    requires FixedRows(t, mid, inserted) && mid.requests == t.requests && id in Missing(mid) && id !in inserted
    ensures FixedRows(t, FixOne(mid, yearOf, id), inserted + if Mapped(t.requests[id]) then {id} else {})
  {
    FixOneEffect(mid, yearOf, id);
    var more := if Mapped(t.requests[id]) then {id} else {};
    assert Missing(t) - inserted - more == Missing(t) - (inserted + more);
    assert Reported(t) - inserted - more == Reported(t) - (inserted + more);
  }

  lemma MappedRowsLast(t: Tables, rows: seq<Uuid>)
    requires rows != [] && forall id <- rows :: id in t.requests
    ensures var n := |rows| - 1;
            MappedRows(t, rows) == MappedRows(t, rows[..n]) + if Mapped(t.requests[rows[n]]) then {rows[n]} else {}
  {
    assert rows[..|rows| - 1] + [rows[|rows| - 1]] == rows;
  }

  /** A run removes exactly its mapped rows from the missing set and touches nothing else. */
  lemma {:induction false} FixEffect(t: Tables, yearOf: int -> int, rows: seq<Uuid>)
    requires ValidTables(t) && MissingRows(t, rows)
    ensures FixedRows(t, Fix(t, yearOf, rows), MappedRows(t, rows))
  {
    if rows != [] {
      var init, last := rows[..|rows| - 1], rows[|rows| - 1];
      FixEffect(t, yearOf, init);
      MappedRowsLast(t, rows);
      FixedOneMore(t, Fix(t, yearOf, init), yearOf, MappedRows(t, init), last);
    }
  }

  function UsageCount(ledger: seq<LedgerEntry>, id: Uuid): nat {
    if ledger == [] then 0
    else UsageCount(ledger[..|ledger| - 1], id) + if IsUsageOf(ledger[|ledger| - 1], id) then 1 else 0
  }

  /** A run gives every fixed request exactly one new USAGE row and every other request none. */
  lemma {:induction false} FixCounts(t: Tables, yearOf: int -> int, rows: seq<Uuid>, id: Uuid)
    requires ValidTables(t) && MissingRows(t, rows)
    ensures UsageCount(Fix(t, yearOf, rows).ledger, id) ==
            UsageCount(t.ledger, id) + if id in MappedRows(t, rows) then 1 else 0
  {
    if rows != [] {
      var init, last := rows[..|rows| - 1], rows[|rows| - 1];
      FixCounts(t, yearOf, init, id);
      assert init + [last] == rows;
      var before, after := Fix(t, yearOf, init), Fix(t, yearOf, rows);
      if Mapped(t.requests[last]) {
        assert after.ledger[..|after.ledger| - 1] == before.ledger;
      }
    }
  }

  // ---------------------------------------------------------------- batches exist

  lemma {:induction false} Least(pool: set<Uuid>, key: map<Uuid, int>) returns (least: Uuid)
    requires pool != {} && pool <= key.Keys
    ensures least in pool && forall x <- pool :: key[least] <= key[x]
    decreases pool
  {
    least :| least in pool;
    if pool != {least} {
      var other := Least(pool - {least}, key);
      if key[other] < key[least] {
        least := other;
      }
    }
  }

  /** Whatever the ordering key, the query has an answer. */
  lemma {:induction false} OldestExists(pool: set<Uuid>, key: map<Uuid, int>, limit: nat) returns (rows: seq<Uuid>)
    requires pool <= key.Keys
    ensures IsOldest(pool, key, limit, rows)
    decreases pool
  {
    if pool == {} || limit == 0 {
      rows := [];
    } else {
      var first := Least(pool, key);
      var rest := OldestExists(pool - {first}, key, limit - 1);
      rows := [first] + rest;
      assert pool == (pool - {first}) + {first};
    }
  }

  // ---------------------------------------------------------------- drain bound

  lemma SubsetSize<T>(a: set<T>, b: set<T>)
    requires a <= b
    ensures |a| <= |b| && |b - a| == |b| - |a|
  {
    assert b == a + (b - a);
  }

  lemma MissingSplit(t: Tables)
    ensures Missing(t) == MappedMissing(t) + UnmappedMissing(t)
    ensures |Missing(t)| == |MappedMissing(t)| + |UnmappedMissing(t)|
  {
    assert Missing(t) == MappedMissing(t) + UnmappedMissing(t);
  }

  lemma RowsBound(rows: seq<Uuid>, s: set<Uuid>)
    requires Distinct(rows)
    ensures s <= Elems(rows) ==> |s| <= |rows|
    ensures Elems(rows) <= s ==> |rows| <= |s|
    ensures Elems(rows) == s ==> |rows| == |s|
  {
    DistinctSize(rows);
    if s <= Elems(rows) {
      SubsetSize(s, Elems(rows));
    }
    if Elems(rows) <= s {
      SubsetSize(Elems(rows), s);
    }
  }

  function Min(a: int, b: int): int {
    if a < b then a else b
  }

  lemma BatchSize(t: Tables, limit: nat, rows: seq<Uuid>)
    requires IsBatch(t, limit, rows)
    ensures |rows| == Min(limit, |Missing(t)|)
  {
    RowsBound(rows, Missing(t));
    assert Elems(rows) <= Missing(t);
    if |rows| < limit {
      assert Elems(rows) == Missing(t);
    }
  }

  lemma BatchSplit(t: Tables, limit: nat, rows: seq<Uuid>)
    requires IsBatch(t, limit, rows)
    ensures MappedRows(t, rows) <= MappedMissing(t)
    ensures |rows| <= |MappedRows(t, rows)| + |UnmappedMissing(t)|
  {
    var inserted, skipped := MappedRows(t, rows), Elems(rows) - MappedRows(t, rows);
    assert skipped <= UnmappedMissing(t);
    SubsetSize(skipped, UnmappedMissing(t));
    DistinctSize(rows);
    assert Elems(rows) == inserted + skipped;
  }

  /** The LIMIT comes before the type filter, so a batch wastes at most N of its L places. */
  lemma BatchProgress(t: Tables, limit: nat, rows: seq<Uuid>)
    requires IsBatch(t, limit, rows)
    ensures |MappedMissing(t) - MappedRows(t, rows)| == |MappedMissing(t)| - |MappedRows(t, rows)|
    ensures |MappedRows(t, rows)| >= Min(|MappedMissing(t)|, limit - |UnmappedMissing(t)|)
  {
    BatchSplit(t, limit, rows);
    SubsetSize(MappedRows(t, rows), MappedMissing(t));
    BatchSize(t, limit, rows);
    MissingSplit(t);
  }

  lemma FixedMapped(t: Tables, yearOf: int -> int, rows: seq<Uuid>)
    requires ValidTables(t) && MissingRows(t, rows)
    ensures var t' := Fix(t, yearOf, rows);
            MappedMissing(t') == MappedMissing(t) - MappedRows(t, rows) && UnmappedMissing(t') == UnmappedMissing(t)
  {
    FixEffect(t, yearOf, rows);
  }

  /** Every run inserts at least min(C, L - N) rows: C mapped, N unmapped missing requests, limit L. */
  lemma RunProgress(t: Tables, yearOf: int -> int, limit: nat, t': Tables)
    requires ValidTables(t) && Run(t, yearOf, limit, t')
    ensures ValidTables(t') && t'.requests == t.requests && t.ledger <= t'.ledger
    ensures |t'.ledger| - |t.ledger| == |MappedMissing(t)| - |MappedMissing(t')|
    ensures UnmappedMissing(t') == UnmappedMissing(t) && MappedMissing(t') <= MappedMissing(t)
    ensures Orphans(t') == Orphans(t)
    ensures |t'.ledger| - |t.ledger| >= Min(|MappedMissing(t)|, limit - |UnmappedMissing(t)|)
  {
    var rows: seq<Uuid> :| IsBatch(t, limit, rows) && t' == Fix(t, yearOf, rows);
    FixEffect(t, yearOf, rows);
    BatchProgress(t, limit, rows);
    FixedMapped(t, yearOf, rows);
  }

  /** Consecutive runs of the job, with nothing else writing in between. */
  ghost predicate Runs(ts: seq<Tables>, yearOf: int -> int, limit: nat) {
    && |ts| > 0 && ValidTables(ts[0])
    && forall i :: 0 < i < |ts| ==> Run(ts[i - 1], yearOf, limit, ts[i])
  }

  lemma {:induction false} RunsKeep(ts: seq<Tables>, yearOf: int -> int, limit: nat, n: nat)
    requires Runs(ts, yearOf, limit) && n < |ts|
    ensures ValidTables(ts[n]) && ts[n].requests == ts[0].requests && ts[0].ledger <= ts[n].ledger
    ensures UnmappedMissing(ts[n]) == UnmappedMissing(ts[0]) && MappedMissing(ts[n]) <= MappedMissing(ts[0])
    ensures Orphans(ts[n]) == Orphans(ts[0])
    ensures |ts[n].ledger| - |ts[0].ledger| == |MappedMissing(ts[0])| - |MappedMissing(ts[n])|
  {
    if n > 0 {
      RunsKeep(ts, yearOf, limit, n - 1);
      RunProgress(ts[n - 1], yearOf, limit, ts[n]);
    }
  }

  /** What is left of `total` after n rounds that each take min(left, step). */
  predicate DrainedTo(total: nat, step: nat, n: nat, left: nat) {
    left == 0 || left + Times(n, step) <= total
  }

  /** Multiplication by repeated addition, so that the induction stays linear. */
  function Times(n: nat, step: nat): (product: nat)
    ensures product == n * step
  {
    if n == 0 then 0 else Times(n - 1, step) + step
  }

  lemma DrainRound(total: nat, step: nat, n: nat, left: nat, left': nat)
    requires DrainedTo(total, step, n, left) && left - left' >= Min(left, step)
    ensures DrainedTo(total, step, n + 1, left')
  {
    assert Times(n + 1, step) == Times(n, step) + step;
  }

  lemma DrainStep(t: Tables, yearOf: int -> int, limit: nat, t': Tables, total: nat, n: nat)
    requires ValidTables(t) && Run(t, yearOf, limit, t') && |UnmappedMissing(t)| < limit
    requires DrainedTo(total, limit - |UnmappedMissing(t)|, n, |MappedMissing(t)|)
    ensures DrainedTo(total, limit - |UnmappedMissing(t)|, n + 1, |MappedMissing(t')|)
  {
    RunProgress(t, yearOf, limit, t');
    DrainRound(total, limit - |UnmappedMissing(t)|, n, |MappedMissing(t)|, |MappedMissing(t')|);
  }

  lemma {:induction false} RunsDrain(ts: seq<Tables>, yearOf: int -> int, limit: nat, n: nat)
    requires Runs(ts, yearOf, limit) && n < |ts|
    requires |UnmappedMissing(ts[0])| < limit
    ensures DrainedTo(|MappedMissing(ts[0])|, limit - |UnmappedMissing(ts[0])|, n, |MappedMissing(ts[n])|)
  {
    if n > 0 {
      RunsDrain(ts, yearOf, limit, n - 1);
      RunsKeep(ts, yearOf, limit, n - 1);
      DrainStep(ts[n - 1], yearOf, limit, ts[n], |MappedMissing(ts[0])|, n - 1);
    }
  }

  /** The drain bound: after n runs with n * (L - N) >= C no mapped request is missing. */
  lemma DrainBound(ts: seq<Tables>, yearOf: int -> int, limit: nat, n: nat)
    requires Runs(ts, yearOf, limit) && n < |ts|
    requires |UnmappedMissing(ts[0])| < limit
    requires n * (limit - |UnmappedMissing(ts[0])|) >= |MappedMissing(ts[0])|
    ensures MappedMissing(ts[n]) == {}
  {
    RunsDrain(ts, yearOf, limit, n);
  }

  // ---------------------------------------------------------------- stalls

  /** A run with mapped requests missing does nothing exactly when its batch is full and all unmapped. */
  lemma StallIsFullUnmappedBatch(t: Tables, yearOf: int -> int, limit: nat, rows: seq<Uuid>)
    requires ValidTables(t) && IsBatch(t, limit, rows) && MappedMissing(t) != {}
    ensures Fix(t, yearOf, rows) == t <==> |rows| == limit && forall id <- rows :: id in UnmappedMissing(t)
  {
    FixEffect(t, yearOf, rows);
    var id :| id in MappedMissing(t);
    if forall r <- rows :: r in UnmappedMissing(t) {
      assert MappedRows(t, rows) == {};
      FixNothing(t, yearOf, rows);
      assert id !in rows;
    } else {
      var r :| r in rows && r !in UnmappedMissing(t);
      assert r in MappedRows(t, rows);
    }
  }

  lemma {:induction false} FixNothing(t: Tables, yearOf: int -> int, rows: seq<Uuid>)
    requires forall id <- rows :: id in t.requests && !Mapped(t.requests[id])
    ensures Fix(t, yearOf, rows) == t
  {
    if rows != [] {
      FixNothing(t, yearOf, rows[..|rows| - 1]);
    }
  }

  /** Unmapped missing requests approved at or before `at`. */
  function UnmappedUpTo(t: Tables, at: int): set<Uuid> {
    set id | id in UnmappedMissing(t) && t.requests[id].approvedAt <= at
  }

  ghost predicate OldestMapped(t: Tables, m: Uuid) {
    m in MappedMissing(t) && forall id <- MappedMissing(t) :: t.requests[m].approvedAt <= t.requests[id].approvedAt
  }

  ghost predicate StallingBatch(t: Tables, limit: nat, rows: seq<Uuid>) {
    IsBatch(t, limit, rows) && MappedRows(t, rows) == {}
  }

  /** approved_at refined by a tie-break that puts mapped rows first or last. */
  function TieBreak(t: Tables, mappedFirst: bool): (key: map<Uuid, int>)
    ensures key.Keys == t.requests.Keys
  {
    map id | id in t.requests ::
      2 * t.requests[id].approvedAt + if Mapped(t.requests[id]) == mappedFirst then 0 else 1
  }

  lemma TieBreakBatch(t: Tables, limit: nat, mappedFirst: bool) returns (rows: seq<Uuid>)
    ensures IsBatch(t, limit, rows) && IsOldest(Missing(t), TieBreak(t, mappedFirst), limit, rows)
  {
    rows := OldestExists(Missing(t), TieBreak(t, mappedFirst), limit);
    var key := TieBreak(t, mappedFirst);
    forall a, b | a in key && b in key && key[a] <= key[b]
      ensures t.requests[a].approvedAt <= t.requests[b].approvedAt
    {
    }
  }

  /** A stalling batch is full of unmapped rows that are no newer than any mapped one. */
  lemma StallSkips(t: Tables, limit: nat, rows: seq<Uuid>, m: Uuid)
    requires StallingBatch(t, limit, rows) && m in MappedMissing(t)
    ensures |rows| == limit && m !in rows
    ensures Elems(rows) <= UnmappedUpTo(t, t.requests[m].approvedAt)
  {
    forall id | id in rows ensures id in UnmappedMissing(t) {
      assert id !in MappedRows(t, rows);
    }
  }

  /**
   SQL leaves ties open, so there are two exact conditions. Some legal batch stalls iff at
   least L unmapped requests are no newer than the oldest mapped one.
   */
  lemma StallPossible(t: Tables, limit: nat, m: Uuid)
    requires OldestMapped(t, m)
    ensures (exists rows: seq<Uuid> :: StallingBatch(t, limit, rows)) <==>
            |UnmappedUpTo(t, t.requests[m].approvedAt)| >= limit
  {
    var notNewer := UnmappedUpTo(t, t.requests[m].approvedAt);
    if rows: seq<Uuid> :| StallingBatch(t, limit, rows) {
      StallSkips(t, limit, rows, m);
      RowsBound(rows, notNewer);
    }
    if |notNewer| >= limit {
      var rows := TieBreakBatch(t, limit, false);
      assert MappedRows(t, rows) == {} by {
        if r :| r in MappedRows(t, rows) {
          RowsBound(rows, notNewer + {r});
          assert false;
        }
      }
      assert StallingBatch(t, limit, rows);
    }
  }

  /** Every legal batch stalls iff at least L unmapped requests are strictly older than the oldest mapped one. */
  lemma StallCertain(t: Tables, limit: nat, m: Uuid)
    requires OldestMapped(t, m)
    ensures (forall rows: seq<Uuid> :: IsBatch(t, limit, rows) ==> StallingBatch(t, limit, rows)) <==>
            |UnmappedUpTo(t, t.requests[m].approvedAt - 1)| >= limit
  {
    var older := UnmappedUpTo(t, t.requests[m].approvedAt - 1);
    if |older| >= limit {
      forall rows: seq<Uuid> | IsBatch(t, limit, rows) ensures StallingBatch(t, limit, rows) {
        if r :| r in MappedRows(t, rows) {
          RowsBound(rows, older + {r});
        }
      }
    } else {
      var rows := TieBreakBatch(t, limit, true);
      if StallingBatch(t, limit, rows) {
        StallSkips(t, limit, rows, m);
        RowsBound(rows, older);
      }
    }
  }

  // ---------------------------------------------------------------- exactly when repeated runs drain

  ghost predicate Blocked(t: Tables, limit: nat, x: Uuid) {
    x in MappedMissing(t) && |UnmappedUpTo(t, t.requests[x].approvedAt - 1)| >= limit
  }

  lemma BlockedNotSelected(t: Tables, limit: nat, rows: seq<Uuid>, x: Uuid)
    requires IsBatch(t, limit, rows) && Blocked(t, limit, x)
    ensures x !in rows
  {
    RowsBound(rows, UnmappedUpTo(t, t.requests[x].approvedAt - 1) + {x});
  }

  lemma BlockedStaysMissing(t: Tables, yearOf: int -> int, limit: nat, t': Tables, x: Uuid)
    requires ValidTables(t) && Run(t, yearOf, limit, t') && Blocked(t, limit, x)
    ensures t'.requests == t.requests && x in Missing(t')
  {
    var rows: seq<Uuid> :| IsBatch(t, limit, rows) && t' == Fix(t, yearOf, rows);
    BlockedNotSelected(t, limit, rows, x);
    FixEffect(t, yearOf, rows);
  }

  lemma BlockedStep(t: Tables, yearOf: int -> int, limit: nat, t': Tables, x: Uuid)
    requires ValidTables(t) && Run(t, yearOf, limit, t') && Blocked(t, limit, x)
    ensures Blocked(t', limit, x)
  {
    RunProgress(t, yearOf, limit, t');
    BlockedStaysMissing(t, yearOf, limit, t', x);
    assert UnmappedUpTo(t', t.requests[x].approvedAt - 1) == UnmappedUpTo(t, t.requests[x].approvedAt - 1);
  }

  /** A mapped request behind L strictly older unmapped ones is never repaired, however often the job runs. */
  lemma {:induction false} BlockedForever(ts: seq<Tables>, yearOf: int -> int, limit: nat, n: nat, x: Uuid)
    requires Runs(ts, yearOf, limit) && n < |ts| && Blocked(ts[0], limit, x)
    ensures Blocked(ts[n], limit, x)
  {
    if n > 0 {
      BlockedForever(ts, yearOf, limit, n - 1, x);
      RunsKeep(ts, yearOf, limit, n - 1);
      BlockedStep(ts[n - 1], yearOf, limit, ts[n], x);
    }
  }

  /** Fewer than L unmapped requests are as old as any mapped one. */
  ghost predicate Unblocked(t: Tables, limit: nat) {
    forall x <- MappedMissing(t) :: |UnmappedUpTo(t, t.requests[x].approvedAt)| < limit
  }

  lemma UnblockedStep(t: Tables, yearOf: int -> int, limit: nat, t': Tables)
    requires ValidTables(t) && Run(t, yearOf, limit, t') && Unblocked(t, limit)
    ensures ValidTables(t') && Unblocked(t', limit)
    ensures MappedMissing(t') == {} || |MappedMissing(t')| < |MappedMissing(t)|
  {
    RunProgress(t, yearOf, limit, t');
    forall x | x in MappedMissing(t')
      ensures UnmappedUpTo(t', t'.requests[x].approvedAt) == UnmappedUpTo(t, t.requests[x].approvedAt)
    {
    }
    if MappedMissing(t) != {} {
      UnblockedProgress(t, yearOf, limit, t');
    }
  }

  lemma UnblockedProgress(t: Tables, yearOf: int -> int, limit: nat, t': Tables)
    requires ValidTables(t) && Run(t, yearOf, limit, t') && Unblocked(t, limit) && MappedMissing(t) != {}
    ensures |t'.ledger| > |t.ledger|
  {
    var m := Least(MappedMissing(t), ApprovedAt(t));
    var rows: seq<Uuid> :| IsBatch(t, limit, rows) && t' == Fix(t, yearOf, rows);
    FixEffect(t, yearOf, rows);
    StallPossible(t, limit, m);
    assert !StallingBatch(t, limit, rows);
  }

  /** Then C runs repair everything. */
  lemma {:induction false} DrainsWhenUnblocked(ts: seq<Tables>, yearOf: int -> int, limit: nat, n: nat)
    requires Runs(ts, yearOf, limit) && n < |ts| && Unblocked(ts[0], limit)
    ensures ValidTables(ts[n]) && Unblocked(ts[n], limit)
    ensures MappedMissing(ts[n]) == {} || |MappedMissing(ts[n])| + n <= |MappedMissing(ts[0])|
    ensures n >= |MappedMissing(ts[0])| ==> MappedMissing(ts[n]) == {}
  {
    if n > 0 {
      DrainsWhenUnblocked(ts, yearOf, limit, n - 1);
      UnblockedStep(ts[n - 1], yearOf, limit, ts[n]);
    }
  }

  // ---------------------------------------------------------------- batched repair refines one pass

  /** The columns that matter: everything but the generated id and the audit columns. */
  datatype Core = Core(
    request: Uuid, userId: Uuid, year: int, entryType: string, balanceType: string, amount: Days)

  function CoreOf(e: LedgerEntry): Core {
    Core(e.referenceId, e.userId, e.year, e.entryType, e.balanceType, e.amount)
  }

  function Cores(ledger: seq<LedgerEntry>): (m: multiset<Core>)
    ensures |m| == |ledger|
  {
    if ledger == [] then multiset{}
    else Cores(ledger[..|ledger| - 1]) + multiset{CoreOf(ledger[|ledger| - 1])}
  }

  /** The row that the request deserves, whoever inserts it and when. */
  function Deserved(r: LeaveRequest, yearOf: int -> int, id: Uuid): Core
    requires Mapped(r)
  {
    Core(id, r.userId, yearOf(r.approvedAt), "USAGE", BalanceTypeOf(r.typeCode).value, r.days)
  }

  ghost predicate AllMapped(t: Tables, ids: set<Uuid>) {
    forall id <- ids :: id in t.requests && Mapped(t.requests[id])
  }

  function DeservedRows(t: Tables, yearOf: int -> int, ids: set<Uuid>): set<Core>
    requires AllMapped(t, ids)
  {
    set id | id in ids :: Deserved(t.requests[id], yearOf, id)
  }

  lemma DeservedUnion(t: Tables, yearOf: int -> int, a: set<Uuid>, b: set<Uuid>)
    requires AllMapped(t, a) && AllMapped(t, b) && a !! b
    ensures multiset(DeservedRows(t, yearOf, a + b)) ==
            multiset(DeservedRows(t, yearOf, a)) + multiset(DeservedRows(t, yearOf, b))
  {
    var left, right := DeservedRows(t, yearOf, a), DeservedRows(t, yearOf, b);
    assert left !! right by {
      assert forall c <- left :: c.request in a;
      assert forall c <- right :: c.request in b;
    }
    assert DeservedRows(t, yearOf, a + b) == left + right;
  }

  lemma FixOneCores(t: Tables, yearOf: int -> int, id: Uuid)
    requires id in t.requests
    ensures var more := if Mapped(t.requests[id]) then {id} else {};
            Cores(FixOne(t, yearOf, id).ledger) == Cores(t.ledger) + multiset(DeservedRows(t, yearOf, more))
  {
    if Mapped(t.requests[id]) {
      var after := FixOne(t, yearOf, id).ledger;
      assert after[..|after| - 1] == t.ledger;
      assert DeservedRows(t, yearOf, {id}) == {Deserved(t.requests[id], yearOf, id)};
    }
  }

  lemma {:induction false} FixCores(t: Tables, yearOf: int -> int, rows: seq<Uuid>)
    requires MissingRows(t, rows)
    ensures AllMapped(t, MappedRows(t, rows))
    ensures Cores(Fix(t, yearOf, rows).ledger) ==
            Cores(t.ledger) + multiset(DeservedRows(t, yearOf, MappedRows(t, rows)))
  {
    if rows != [] {
      var init, last := rows[..|rows| - 1], rows[|rows| - 1];
      var before, more := Fix(t, yearOf, init), if Mapped(t.requests[last]) then {last} else {};
      FixCores(t, yearOf, init);
      MappedRowsLast(t, rows);
      FixOneCores(before, yearOf, last);
      assert DeservedRows(before, yearOf, more) == DeservedRows(t, yearOf, more);
      DeservedUnion(t, yearOf, MappedRows(t, init), more);
    }
  }

  ghost predicate RepairedSince(t0: Tables, yearOf: int -> int, t: Tables) {
    && AllMapped(t0, MappedMissing(t0) - MappedMissing(t))
    && Cores(t.ledger) ==
       Cores(t0.ledger) + multiset(DeservedRows(t0, yearOf, MappedMissing(t0) - MappedMissing(t)))
  }

  lemma RunCores(t: Tables, yearOf: int -> int, limit: nat, t': Tables)
    requires ValidTables(t) && Run(t, yearOf, limit, t')
    ensures RepairedSince(t, yearOf, t')
  {
    var rows: seq<Uuid> :| IsBatch(t, limit, rows) && t' == Fix(t, yearOf, rows);
    FixCores(t, yearOf, rows);
    FixedMapped(t, yearOf, rows);
    BatchSplit(t, limit, rows);
    assert MappedMissing(t) - MappedMissing(t') == MappedRows(t, rows);
  }

  lemma RepairedSinceStep(t0: Tables, yearOf: int -> int, t: Tables, t': Tables)
    requires RepairedSince(t0, yearOf, t) && RepairedSince(t, yearOf, t') && t.requests == t0.requests
    requires MappedMissing(t') <= MappedMissing(t) <= MappedMissing(t0)
    ensures RepairedSince(t0, yearOf, t')
  {
    var earlier, now := MappedMissing(t0) - MappedMissing(t), MappedMissing(t) - MappedMissing(t');
    assert MappedMissing(t0) - MappedMissing(t') == earlier + now;
    DeservedUnion(t0, yearOf, earlier, now);
    assert DeservedRows(t, yearOf, now) == DeservedRows(t0, yearOf, now);
  }

  /** After any number of runs the ledger holds the old rows plus one deserved row per request fixed so far. */
  lemma {:induction false} RunsCores(ts: seq<Tables>, yearOf: int -> int, limit: nat, n: nat)
    requires Runs(ts, yearOf, limit) && n < |ts|
    ensures RepairedSince(ts[0], yearOf, ts[n])
  {
    if n == 0 {
      assert MappedMissing(ts[0]) - MappedMissing(ts[0]) == {};
    } else {
      RunsCores(ts, yearOf, limit, n - 1);
      RunsKeep(ts, yearOf, limit, n - 1);
      RunProgress(ts[n - 1], yearOf, limit, ts[n]);
      RunCores(ts[n - 1], yearOf, limit, ts[n]);
      RepairedSinceStep(ts[0], yearOf, ts[n - 1], ts[n]);
    }
  }

  lemma UnlimitedRun(t: Tables, yearOf: int -> int, once: Tables)
    requires ValidTables(t) && Run(t, yearOf, |Missing(t)|, once)
    ensures MappedMissing(once) == {}
  {
    MissingSplit(t);
    RunProgress(t, yearOf, |Missing(t)|, once);
  }

  /** Running to the fixpoint leaves the same rows as one pass without a LIMIT. */
  lemma BatchedRefinesOneShot(ts: seq<Tables>, yearOf: int -> int, limit: nat, once: Tables)
    requires Runs(ts, yearOf, limit) && MappedMissing(ts[|ts| - 1]) == {}
    requires Run(ts[0], yearOf, |Missing(ts[0])|, once)
    ensures MappedMissing(once) == {}
    ensures Cores(ts[|ts| - 1].ledger) == Cores(once.ledger)
    ensures forall user, year, balanceType ::
              UsageTotal(ts[|ts| - 1].ledger, user, year, balanceType) ==
              UsageTotal(once.ledger, user, year, balanceType)
  {
    var t, last := ts[0], ts[|ts| - 1];
    RunsCores(ts, yearOf, limit, |ts| - 1);
    UnlimitedRun(t, yearOf, once);
    RunCores(t, yearOf, |Missing(t)|, once);
    assert MappedMissing(t) - MappedMissing(last) == MappedMissing(t) - MappedMissing(once);
    forall user, year, balanceType
      ensures UsageTotal(last.ledger, user, year, balanceType) == UsageTotal(once.ledger, user, year, balanceType)
    {
      TotalOfCores(last.ledger, once.ledger, user, year, balanceType);
    }
  }

  // ---------------------------------------------------------------- per-balance totals

  function Share(c: Core, user: Uuid, year: int, balanceType: string): real {
    if c.entryType == "USAGE" && c.userId == user && c.year == year && c.balanceType == balanceType
    then c.amount else 0.0
  }

  function UsageTotal(ledger: seq<LedgerEntry>, user: Uuid, year: int, balanceType: string): real {
    if ledger == [] then 0.0
    else UsageTotal(ledger[..|ledger| - 1], user, year, balanceType)
         + Share(CoreOf(ledger[|ledger| - 1]), user, year, balanceType)
  }

  function Without(ledger: seq<LedgerEntry>, i: nat): seq<LedgerEntry>
    requires i < |ledger|
  {
    ledger[..i] + ledger[i + 1..]
  }

  lemma WithoutInit(ledger: seq<LedgerEntry>, i: nat)
    requires i < |ledger| - 1
    ensures var rest := Without(ledger, i);
            rest[..|rest| - 1] == Without(ledger[..|ledger| - 1], i) && rest[|rest| - 1] == ledger[|ledger| - 1]
  {
  }

  lemma {:induction false} CoresWithout(ledger: seq<LedgerEntry>, i: nat)
    requires i < |ledger|
    ensures Cores(ledger) == Cores(Without(ledger, i)) + multiset{CoreOf(ledger[i])}
  {
    var n := |ledger| - 1;
    if i == n {
      assert Without(ledger, i) == ledger[..n];
    } else {
      CoresWithout(ledger[..n], i);
      WithoutInit(ledger, i);
    }
  }

  lemma {:induction false} TotalWithout(ledger: seq<LedgerEntry>, i: nat, user: Uuid, year: int, balanceType: string)
    requires i < |ledger|
    ensures UsageTotal(ledger, user, year, balanceType) ==
            UsageTotal(Without(ledger, i), user, year, balanceType) + Share(CoreOf(ledger[i]), user, year, balanceType)
  {
    var n := |ledger| - 1;
    if i == n {
      assert Without(ledger, i) == ledger[..n];
    } else {
      TotalWithout(ledger[..n], i, user, year, balanceType);
      WithoutInit(ledger, i);
    }
  }

  lemma {:induction false} CoreHasEntry(ledger: seq<LedgerEntry>, c: Core) returns (i: nat)
    requires c in Cores(ledger)
    ensures i < |ledger| && CoreOf(ledger[i]) == c
  {
    if CoreOf(ledger[|ledger| - 1]) == c {
      i := |ledger| - 1;
    } else {
      i := CoreHasEntry(ledger[..|ledger| - 1], c);
    }
  }

  lemma SameCoresRemoved(a: seq<LedgerEntry>, b: seq<LedgerEntry>) returns (i: nat)
    requires a != [] && Cores(a) == Cores(b)
    ensures i < |b| && CoreOf(b[i]) == CoreOf(a[|a| - 1])
    ensures Cores(Without(b, i)) == Cores(a[..|a| - 1])
  {
    var c := CoreOf(a[|a| - 1]);
    i := CoreHasEntry(b, c);
    CoresWithout(b, i);
    assert Cores(a[..|a| - 1]) == Cores(a) - multiset{c};
    assert Cores(Without(b, i)) == Cores(b) - multiset{c};
  }

  /** Totals depend only on which rows are there, not on their order. */
  lemma {:induction false} TotalOfCores(
    a: seq<LedgerEntry>, b: seq<LedgerEntry>, user: Uuid, year: int, balanceType: string)
    requires Cores(a) == Cores(b)
    ensures UsageTotal(a, user, year, balanceType) == UsageTotal(b, user, year, balanceType)
    decreases |a|
  {
    if a == [] {
      assert |Cores(b)| == 0;
    } else {
      var i := SameCoresRemoved(a, b);
      TotalWithout(b, i, user, year, balanceType);
      TotalOfCores(a[..|a| - 1], Without(b, i), user, year, balanceType);
    }
  }

  function DaysFixed(t: Tables, yearOf: int -> int, rows: seq<Uuid>, user: Uuid, year: int, balanceType: string): real
    requires forall id <- rows :: id in t.requests
  {
    if rows == [] then 0.0
    else
      var r := t.requests[rows[|rows| - 1]];
      DaysFixed(t, yearOf, rows[..|rows| - 1], user, year, balanceType)
      + if r.userId == user && yearOf(r.approvedAt) == year && BalanceTypeOf(r.typeCode) == Some(balanceType)
        then r.days else 0.0
  }

  /** Each (user, year, balance type) USAGE total grows by exactly the days of the requests fixed. */
  lemma {:induction false} FixTotals(
    t: Tables, yearOf: int -> int, rows: seq<Uuid>, user: Uuid, year: int, balanceType: string)
    requires forall id <- rows :: id in t.requests
    ensures UsageTotal(Fix(t, yearOf, rows).ledger, user, year, balanceType) ==
            UsageTotal(t.ledger, user, year, balanceType) + DaysFixed(t, yearOf, rows, user, year, balanceType)
  {
    if rows != [] {
      var init := rows[..|rows| - 1];
      FixTotals(t, yearOf, init, user, year, balanceType);
      var before, after := Fix(t, yearOf, init), Fix(t, yearOf, rows);
      if Mapped(t.requests[rows[|rows| - 1]]) {
        assert after.ledger[..|after.ledger| - 1] == before.ledger;
      }
    }
  }

  // ---------------------------------------------------------------- detector and repair agree

  /** Approved, deducted requests of a type that consumes no balance. */
  function ReportableUnmapped(t: Tables): set<Uuid> {
    set id | id in t.requests && Reportable(t.requests[id]) && !Mapped(t.requests[id])
  }

  /**
   After draining, the detector still reports the approved requests of unmapped types that
   had no USAGE row to begin with; that is all of them iff none of them had one.
   */
  lemma DrainedReport(ts: seq<Tables>, yearOf: int -> int, limit: nat)
    requires Runs(ts, yearOf, limit) && MappedMissing(ts[|ts| - 1]) == {}
    ensures Reported(ts[|ts| - 1]) ==
            set id | id in ReportableUnmapped(ts[0]) && !HasUsage(ts[0].ledger, id)
    ensures Reported(ts[|ts| - 1]) == ReportableUnmapped(ts[0]) <==>
            forall id <- ReportableUnmapped(ts[0]) :: !HasUsage(ts[0].ledger, id)
    ensures Orphans(ts[|ts| - 1]) == Orphans(ts[0])
  {
    var t, last := ts[0], ts[|ts| - 1];
    RunsKeep(ts, yearOf, limit, |ts| - 1);
    assert forall id :: id in Reported(last) <==> id in Missing(last) && Reportable(last.requests[id]);
    assert forall id :: id in UnmappedMissing(t) <==> id in Missing(t) && !Mapped(t.requests[id]);
    assert Missing(last) == UnmappedMissing(t) by {
      MissingSplit(last);
    }
    assert forall id <- Reported(last) :: id in ReportableUnmapped(t) && !HasUsage(t.ledger, id);
  }
}
