/**
 The reconciliation job of the leaves schema: the anomaly detector and the batched
 auto-fix that inserts missing USAGE rows into the append-only time ledger.

 `Tables` is the pure view of the two tables; `LeavesDatabase` is the mutable database
 whose methods are the SQL statements written out as loops.
 */
module Reconciliation {
  import opened Wrappers

  type Uuid = nat
  /** days_requested, inside the ledger's CHECK (amount >= 0). */
  type Days = d: real | d >= 0.0

  datatype LeaveStatus =
    Draft | Pending | Approved | ApprovedConditional | Rejected | Cancelled | Recalled | Completed

  datatype LeaveRequest = LeaveRequest(
    userId: Uuid,
    typeCode: string,
    days: Days,
    status: LeaveStatus,
    deducted: bool,
    approvedBy: Option<Uuid>,
    approvedAt: int)

  datatype LedgerEntry = LedgerEntry(
    id: Uuid,
    userId: Uuid,
    year: int,
    entryType: string,
    balanceType: string,
    amount: Days,
    referenceType: string,
    referenceId: Uuid,
    referenceStatus: string,
    createdBy: Option<Uuid>)

  /** `nextId` stands for gen_random_uuid(): every id handed out so far is below it. */
  datatype Tables = Tables(requests: map<Uuid, LeaveRequest>, ledger: seq<LedgerEntry>, nextId: Uuid)

  ghost predicate ValidTables(t: Tables) {
    && (forall i :: 0 <= i < |t.ledger| ==> t.ledger[i].id < t.nextId)
    && (forall i, j :: 0 <= i < j < |t.ledger| ==> t.ledger[i].id != t.ledger[j].id)
  }

  predicate IsUsageOf(e: LedgerEntry, id: Uuid) {
    e.referenceType == "LEAVE_REQUEST" && e.referenceId == id && e.entryType == "USAGE"
  }

  predicate HasUsage(ledger: seq<LedgerEntry>, id: Uuid) {
    exists e <- ledger :: IsUsageOf(e, id)
  }

  /** The type map of the auto-fix; unknown codes and codes mapped to None are alike. */
  function BalanceTypeOf(code: string): Option<string> {
    if code == "FER" then Some("VACATION_AC")
    else if code == "ROL" then Some("ROL")
    else if code == "PER" || code == "L104" || code == "DON" then Some("PERMITS")
    else None
  }

  predicate Mapped(r: LeaveRequest) {
    BalanceTypeOf(r.typeCode).Some?
  }

  /** The WHERE clause of the auto-fix (it also takes conditional approvals). */
  predicate Fixable(r: LeaveRequest) {
    (r.status == Approved || r.status == ApprovedConditional) && r.deducted
  }

  /** The WHERE clause of the detector. */
  predicate Reportable(r: LeaveRequest) {
    r.status == Approved && r.deducted
  }

  function Missing(t: Tables): set<Uuid> {
    set id | id in t.requests && Fixable(t.requests[id]) && !HasUsage(t.ledger, id)
  }

  function MappedMissing(t: Tables): set<Uuid> {
    set id | id in Missing(t) && Mapped(t.requests[id])
  }

  function UnmappedMissing(t: Tables): set<Uuid> {
    set id | id in Missing(t) && !Mapped(t.requests[id])
  }

  function Reported(t: Tables): set<Uuid> {
    set id | id in t.requests && Reportable(t.requests[id]) && !HasUsage(t.ledger, id)
  }

  predicate IsOrphan(t: Tables, e: LedgerEntry) {
    && e.referenceType == "LEAVE_REQUEST"
    && e.entryType == "USAGE"
    && !(e.referenceId in t.requests
         && t.requests[e.referenceId].status in {Approved, ApprovedConditional})
  }

  function Orphans(t: Tables): set<LedgerEntry> {
    set e | e in t.ledger && IsOrphan(t, e)
  }

  predicate Distinct<T(==)>(s: seq<T>) {
    forall i, j :: 0 <= i < j < |s| ==> s[i] != s[j]
  }

  function Elems<T(==)>(s: seq<T>): set<T> {
    set x | x in s
  }

  /** `s` lists every member of `pool` exactly once. */
  ghost predicate Enumerates<T>(s: seq<T>, pool: set<T>) {
    && Distinct(s)
    && (forall i :: 0 <= i < |s| ==> s[i] in pool)
    && (forall x <- pool :: x in s)
  }

  /**
   `rows` is a legal answer to SELECT ... FROM missing ORDER BY key ASC LIMIT limit.
   SQL leaves the order of equal keys open, and so does this predicate.
   */
  ghost predicate IsOldest(pool: set<Uuid>, key: map<Uuid, int>, limit: nat, rows: seq<Uuid>)
    requires pool <= key.Keys
  {
    && Distinct(rows)
    && (forall i :: 0 <= i < |rows| ==> rows[i] in pool)
    && (forall i, j :: 0 <= i < j < |rows| ==> key[rows[i]] <= key[rows[j]])
    && |rows| <= limit
    && (forall id <- pool :: id in rows || (|rows| == limit && forall r <- rows :: key[r] <= key[id]))
  }

  function ApprovedAt(t: Tables): (m: map<Uuid, int>)
    ensures m.Keys == t.requests.Keys
  {
    map id | id in t.requests :: t.requests[id].approvedAt
  }

  ghost predicate IsBatch(t: Tables, limit: nat, rows: seq<Uuid>) {
    IsOldest(Missing(t), ApprovedAt(t), limit, rows)
  }

  /** One iteration of the insert loop. `yearOf` is EXTRACT(YEAR FROM ...) in the session's time zone. */
  function FixOne(t: Tables, yearOf: int -> int, id: Uuid): Tables
    requires id in t.requests
  {
    var r := t.requests[id];
    match BalanceTypeOf(r.typeCode)
    case None => t
    case Some(balanceType) =>
      var entry := LedgerEntry(t.nextId, r.userId, yearOf(r.approvedAt), "USAGE", balanceType,
                               r.days, "LEAVE_REQUEST", id, "APPROVED", r.approvedBy);
      t.(ledger := t.ledger + [entry], nextId := t.nextId + 1)
  }

  function Fix(t: Tables, yearOf: int -> int, rows: seq<Uuid>): (t': Tables)
    requires forall id <- rows :: id in t.requests
    ensures t'.requests == t.requests
  {
    if rows == [] then t
    else FixOne(Fix(t, yearOf, rows[..|rows| - 1]), yearOf, rows[|rows| - 1])
  }

  /** What one enabled run of the auto-fix may do to the tables. */
  ghost predicate Run(t: Tables, yearOf: int -> int, limit: nat, t': Tables) {
    exists rows: seq<Uuid> :: IsBatch(t, limit, rows) && t' == Fix(t, yearOf, rows)
  }

  function MappedRows(t: Tables, rows: seq<Uuid>): set<Uuid>
    requires forall id <- rows :: id in t.requests
  {
    set id | id in rows && Mapped(t.requests[id])
  }

  // ---------------------------------------------------------------- detector

  datatype Details =
    | LeaveDetails(userId: Uuid, approvedAt: int, days: Days)
    | EntryDetails(referenceId: Uuid, entryUser: Uuid, amount: Days)
    | TripDetails(tripUser: Uuid, tripApprovedAt: int, estimatedTotal: Option<real>)

  datatype Anomaly = Anomaly(
    anomalyType: string, severity: string, entityType: string, entityId: Uuid, details: Details)

  function MissingAnomaly(t: Tables, id: Uuid): Anomaly
    requires id in t.requests
  {
    var r := t.requests[id];
    Anomaly("MISSING_LEDGER_ENTRY", "HIGH", "LEAVE_REQUEST", id, LeaveDetails(r.userId, r.approvedAt, r.days))
  }

  function OrphanAnomaly(e: LedgerEntry): Anomaly {
    Anomaly("ORPHAN_LEDGER_ENTRY", "MEDIUM", "TIME_LEDGER", e.id, EntryDetails(e.referenceId, e.userId, e.amount))
  }

  datatype Trip = Trip(userId: Uuid, approved: bool, approvedAt: Option<int>, estimatedTotal: Option<real>)

  datatype ExpenseEntry = ExpenseEntry(referenceType: string, referenceId: Uuid, entryType: string)

  predicate HasAllocation(entries: seq<ExpenseEntry>, id: Uuid) {
    exists e <- entries ::
      e.referenceType == "TRIP" && e.referenceId == id && e.entryType == "BUDGET_ALLOCATION"
  }

  predicate UnallocatedTrip(trips: map<Uuid, Trip>, entries: seq<ExpenseEntry>, id: Uuid) {
    id in trips && trips[id].approved && trips[id].approvedAt.Some? && !HasAllocation(entries, id)
  }

  function Unallocated(trips: map<Uuid, Trip>, entries: seq<ExpenseEntry>): set<Uuid> {
    set id | id in trips && UnallocatedTrip(trips, entries, id)
  }

  /** A zero estimate is falsy in Python and reported as None. */
  function TripAnomaly(trips: map<Uuid, Trip>, entries: seq<ExpenseEntry>, id: Uuid): Anomaly
    requires UnallocatedTrip(trips, entries, id)
  {
    var trip := trips[id];
    Anomaly("MISSING_BUDGET_ALLOCATION", "HIGH", "BUSINESS_TRIP", id,
            TripDetails(trip.userId, trip.approvedAt.value,
                        if trip.estimatedTotal == Some(0.0) then None else trip.estimatedTotal))
  }

  ghost predicate LeavesReport(t: Tables, report: seq<Anomaly>) {
    && Distinct(report)
    && (forall a :: a in report <==>
          (exists id <- Reported(t) :: a == MissingAnomaly(t, id)) ||
          (exists e <- Orphans(t) :: a == OrphanAnomaly(e)))
    && |report| == |Reported(t)| + |Orphans(t)|
  }

  ghost predicate ExpensesReport(trips: map<Uuid, Trip>, entries: seq<ExpenseEntry>, report: seq<Anomaly>) {
    && Distinct(report)
    && (forall a :: a in report <==>
          exists id <- Unallocated(trips, entries) :: a == TripAnomaly(trips, entries, id))
    && |report| == |Unallocated(trips, entries)|
  }

  function CountOf(report: seq<Anomaly>, entityTypes: set<string>): nat {
    if report == [] then 0
    else (if report[0].entityType in entityTypes then 1 else 0) + CountOf(report[1..], entityTypes)
  }

  const LEAVES_ENTITIES := {"LEAVE_REQUEST", "TIME_LEDGER"}
  const EXPENSES_ENTITIES := {"BUSINESS_TRIP", "EXPENSE_LEDGER"}

  lemma {:induction false} CountOfAppend(a: seq<Anomaly>, b: seq<Anomaly>, types: set<string>)
    ensures CountOf(a + b, types) == CountOf(a, types) + CountOf(b, types)
  {
    if a == [] {
      assert a + b == b;
    } else {
      assert (a + b)[1..] == a[1..] + b;
      CountOfAppend(a[1..], b, types);
    }
  }

  lemma {:induction false} CountOfUniform(a: seq<Anomaly>, types: set<string>, all: bool)
    requires forall x <- a :: x.entityType in types <==> all
    ensures CountOf(a, types) == if all then |a| else 0
  {
    if a != [] {
      CountOfUniform(a[1..], types, all);
    }
  }

  lemma {:induction false} DistinctSize<T>(s: seq<T>)
    requires Distinct(s)
    ensures |Elems(s)| == |s|
  {
    if s != [] {
      var init, last := s[..|s| - 1], s[|s| - 1];
      DistinctSize(init);
      assert s == init + [last];
      assert Elems(s) == Elems(init) + {last};
    }
  }

  /** The image of an enumeration under an injective function enumerates the image. */
  lemma ImageEnumerates<K>(pool: set<K>, order: seq<K>, item: K --> Anomaly, items: seq<Anomaly>)
    requires Enumerates(order, pool)
    requires forall k :: k in pool ==> item.requires(k)
    requires forall k, l :: k in pool && l in pool && k != l ==> item(k) != item(l)
    requires |items| == |order| && forall i :: 0 <= i < |order| ==> items[i] == item(order[i])
    ensures Distinct(items) && |items| == |pool|
    ensures forall a :: a in items <==> exists k :: k in pool && a == item(k)
  {
    DistinctSize(order);
    assert Elems(order) == pool;
    forall k | k in pool ensures item(k) in items {
      var i :| 0 <= i < |order| && order[i] == k;
      assert items[i] == item(k);
    }
  }

  /** The report lists exactly one item per missing request and per orphan row. */
  lemma ReportComplete(t: Tables, ids: seq<Uuid>, missing: seq<Anomaly>, rows: seq<LedgerEntry>, orphans: seq<Anomaly>)
    requires ValidTables(t)
    requires Enumerates(ids, Reported(t))
    requires |missing| == |ids| && forall i :: 0 <= i < |ids| ==> missing[i] == MissingAnomaly(t, ids[i])
    requires Enumerates(rows, Orphans(t))
    requires |orphans| == |rows| && forall i :: 0 <= i < |rows| ==> orphans[i] == OrphanAnomaly(rows[i])
    ensures LeavesReport(t, missing + orphans)
  {
    var item := (id: Uuid) requires id in t.requests => MissingAnomaly(t, id);
    ImageEnumerates(Reported(t), ids, item, missing);
    ImageEnumerates(Orphans(t), rows, OrphanAnomaly, orphans);
  }

  method CheckExpensesConsistency(trips: map<Uuid, Trip>, entries: seq<ExpenseEntry>) returns (anomalies: seq<Anomaly>)
    ensures ExpensesReport(trips, entries, anomalies)
  {
    anomalies := [];
    var rest := trips.Keys;
    ghost var ids: seq<Uuid> := [];
    while rest != {}
      invariant rest <= trips.Keys
      invariant Enumerates(ids, Unallocated(trips, entries) - rest)
      invariant |anomalies| == |ids|
      invariant forall i :: 0 <= i < |ids| ==> anomalies[i] == TripAnomaly(trips, entries, ids[i])
      decreases rest
    {
      var id :| id in rest;
      if UnallocatedTrip(trips, entries, id) {
        anomalies := anomalies + [TripAnomaly(trips, entries, id)];
        ids := ids + [id];
      }
      rest := rest - {id};
    }
    var item := (id: Uuid) requires UnallocatedTrip(trips, entries, id) => TripAnomaly(trips, entries, id);
    ImageEnumerates(Unallocated(trips, entries), ids, item, anomalies);
  }

  datatype Summary = Summary(leaves: nat, expenses: nat, total: nat)

  datatype Outcome = Skipped | Done(fixedCount: nat, errorCount: nat)

  // ---------------------------------------------------------------- database

  class LeavesDatabase {
    var requests: map<Uuid, LeaveRequest>
    var ledger: seq<LedgerEntry>
    var nextId: Uuid
    const yearOf: int -> int
    /** The LIMIT of the auto-fix query (100 in the source). */
    const limit: nat

    constructor (requests: map<Uuid, LeaveRequest>, yearOf: int -> int, limit: nat)
      ensures View() == Tables(requests, [], 0) && this.yearOf == yearOf && this.limit == limit
      ensures ValidTables(View())
    {
      this.requests, this.ledger, this.nextId := requests, [], 0;
      this.yearOf, this.limit := yearOf, limit;
    }

    function View(): Tables
      reads this
    {
      Tables(requests, ledger, nextId)
    }

    method ListMissing() returns (anomalies: seq<Anomaly>, ghost ids: seq<Uuid>)
      ensures Enumerates(ids, Reported(View()))
      ensures |anomalies| == |ids|
      ensures forall i :: 0 <= i < |ids| ==> anomalies[i] == MissingAnomaly(View(), ids[i])
    {
      anomalies, ids := [], [];
      var rest := requests.Keys;
      while rest != {}
        invariant rest <= requests.Keys
        invariant Enumerates(ids, Reported(View()) - rest)
        invariant |anomalies| == |ids|
        invariant forall i :: 0 <= i < |ids| ==> anomalies[i] == MissingAnomaly(View(), ids[i])
        decreases rest
      {
        var id :| id in rest;
        if Reportable(requests[id]) && !HasUsage(ledger, id) {
          anomalies := anomalies + [MissingAnomaly(View(), id)];
          ids := ids + [id];
        }
        rest := rest - {id};
      }
    }

    method ListOrphans() returns (anomalies: seq<Anomaly>, ghost rows: seq<LedgerEntry>)
      requires ValidTables(View())
      ensures Enumerates(rows, Orphans(View()))
      ensures |anomalies| == |rows|
      ensures forall i :: 0 <= i < |rows| ==> anomalies[i] == OrphanAnomaly(rows[i])
    {
      anomalies, rows := [], [];
      for k := 0 to |ledger|
        invariant Enumerates(rows, set e | e in ledger[..k] && IsOrphan(View(), e))
        invariant |anomalies| == |rows|
        invariant forall i :: 0 <= i < |rows| ==> anomalies[i] == OrphanAnomaly(rows[i])
      {
        var e := ledger[k];
        if IsOrphan(View(), e) {
          assert e !in ledger[..k];
          anomalies := anomalies + [OrphanAnomaly(e)];
          rows := rows + [e];
        }
      }
    }

    /** Both detector queries and the loops that turn their rows into anomalies. */
    method CheckLeavesConsistency() returns (anomalies: seq<Anomaly>)
      requires ValidTables(View())
      ensures LeavesReport(View(), anomalies)
    {
      var missing, ids := ListMissing();
      var orphans, rows := ListOrphans();
      anomalies := missing + orphans;
      ReportComplete(View(), ids, missing, rows, orphans);
    }

    /** check_balance_consistency; a check that raises contributes nothing. */
    method CheckBalanceConsistency(
      trips: map<Uuid, Trip>, entries: seq<ExpenseEntry>, leavesFail: bool, expensesFail: bool)
      returns (all: seq<Anomaly>, summary: Summary)
      requires ValidTables(View())
      ensures summary.leaves == if leavesFail then 0 else |Reported(View())| + |Orphans(View())|
      ensures summary.expenses ==
              if expensesFail then 0 else |Unallocated(trips, entries)|
      ensures summary.total == |all| == summary.leaves + summary.expenses
      ensures leavesFail || LeavesReport(View(), all[..summary.leaves])
      ensures expensesFail || ExpensesReport(trips, entries, all[summary.leaves..])
    {
      var leaves, expenses := [], [];
      if !leavesFail {
        leaves := CheckLeavesConsistency();
      }
      if !expensesFail {
        expenses := CheckExpensesConsistency(trips, entries);
      }
      all := leaves + expenses;
      summary := Summary(CountOf(all, LEAVES_ENTITIES), CountOf(all, EXPENSES_ENTITIES), |all|);
      CountOfAppend(leaves, expenses, LEAVES_ENTITIES);
      CountOfAppend(leaves, expenses, EXPENSES_ENTITIES);
      CountOfUniform(leaves, LEAVES_ENTITIES, true);
      CountOfUniform(leaves, EXPENSES_ENTITIES, false);
      CountOfUniform(expenses, LEAVES_ENTITIES, false);
      CountOfUniform(expenses, EXPENSES_ENTITIES, true);
      assert all[..|leaves|] == leaves && all[|leaves|..] == expenses;
    }

    method Oldest(ids: set<Uuid>) returns (best: Uuid)
      requires ids != {} && ids <= requests.Keys
      ensures best in ids && forall id <- ids :: requests[best].approvedAt <= requests[id].approvedAt
    {
      best :| best in ids;
      var rest := ids - {best};
      while rest != {}
        invariant best in ids && rest <= ids
        invariant forall id <- ids - rest :: requests[best].approvedAt <= requests[id].approvedAt
        decreases rest
      {
        var id :| id in rest;
        if requests[id].approvedAt < requests[best].approvedAt {
          best := id;
        }
        rest := rest - {id};
      }
    }

    /** SELECT the missing requests ORDER BY approved_at LIMIT limit. */
    method SelectBatch() returns (rows: seq<Uuid>)
      ensures IsBatch(View(), limit, rows)
      ensures forall id <- rows ::
                && id in requests && requests[id].deducted
                && (requests[id].status == Approved || requests[id].status == ApprovedConditional)
                && forall e <- ledger ::
                     !(e.referenceType == "LEAVE_REQUEST" && e.referenceId == id && e.entryType == "USAGE")
    {
      rows := [];
      var rest := Missing(View());
      while rest != {} && |rows| < limit
        invariant rest <= Missing(View()) <= requests.Keys
        invariant Enumerates(rows, Missing(View()) - rest) && |rows| <= limit
        invariant forall i, j :: 0 <= i < j < |rows| ==> ApprovedAt(View())[rows[i]] <= ApprovedAt(View())[rows[j]]
        invariant forall r <- rows, id <- rest :: ApprovedAt(View())[r] <= ApprovedAt(View())[id]
        decreases rest
      {
        var id := Oldest(rest);
        rows := rows + [id];
        rest := rest - {id};
      }
    }

    /** One row of the loop; `raises` says that its INSERT would raise. */
    method InsertRow(id: Uuid, raises: bool) returns (inserted: bool, failed: bool)
      requires id in requests
      modifies this`ledger, this`nextId
      ensures View() == if failed then old(View()) else FixOne(old(View()), yearOf, id)
      ensures inserted == (Mapped(requests[id]) && !raises) && failed == (Mapped(requests[id]) && raises)
    {
      var request := requests[id];
      inserted, failed := false, false;
      match BalanceTypeOf(request.typeCode) {
        case None =>
        case Some(balanceType) =>
          if raises {
            failed := true;
            return;
          }
          ledger := ledger + [LedgerEntry(nextId, request.userId, yearOf(request.approvedAt), "USAGE", balanceType,
                                          request.days, "LEAVE_REQUEST", id, "APPROVED", request.approvedBy)];
          nextId := nextId + 1;
          inserted := true;
      }
    }

    /** The insert loop over the rows of the query; a failed INSERT aborts the transaction of all of them. */
    method InsertRows(batch: seq<Uuid>, failing: set<Uuid>) returns (fixedCount: nat, errorCount: nat, ghost f: nat)
      requires Distinct(batch) && forall i :: 0 <= i < |batch| ==> batch[i] in requests
      modifies this`ledger, this`nextId
      ensures FirstFailure(old(View()), batch, failing, f)
      ensures View() == Fix(old(View()), yearOf, batch[..f]) && |ledger| == |old(ledger)| + fixedCount
      ensures fixedCount == |MappedRows(old(View()), batch[..f])|
      ensures fixedCount + errorCount == |MappedRows(old(View()), batch)| && (errorCount == 0 <==> f == |batch|)
    {
      ghost var before := View();
      fixedCount, errorCount, f := 0, 0, 0;
      for k := 0 to |batch|
        invariant Progress(before, yearOf, batch, failing, k, f, View(), fixedCount, errorCount)
      {
        ghost var now := View();
        var inserted, failed := InsertRow(batch[k], errorCount > 0 || batch[k] in failing);
        ProgressStep(before, yearOf, batch, failing, k, f, now, fixedCount, errorCount);
        fixedCount := fixedCount + if inserted then 1 else 0;
        errorCount := errorCount + if failed then 1 else 0;
        f := if errorCount == 0 then k + 1 else f;
      }
      assert batch[..|batch|] == batch;
    }

    /**
     auto_fix_missing_ledger_entries. The INSERTs of the rows in `failing` raise. After the first
     error PostgreSQL refuses the later ones, and the commit rolls everything back.
     */
    method AutoFix(enabled: bool, failing: set<Uuid>) returns (outcome: Outcome, ghost rows: seq<Uuid>, ghost f: nat)
      modifies this`ledger, this`nextId
      ensures !enabled ==> outcome == Skipped && View() == old(View())
      ensures enabled ==>
                && IsBatch(old(View()), limit, rows) && FirstFailure(old(View()), rows, failing, f)
                && outcome.Done? && outcome.fixedCount == |MappedRows(old(View()), rows[..f])|
                && outcome.fixedCount + outcome.errorCount == |MappedRows(old(View()), rows)|
      ensures enabled && outcome.errorCount == 0 ==>
                && View() == Fix(old(View()), yearOf, rows) && |ledger| == |old(ledger)| + outcome.fixedCount
                && Run(old(View()), yearOf, limit, View())
      ensures enabled && outcome.errorCount > 0 ==> View() == old(View())
      ensures enabled ==> (outcome.errorCount > 0 <==> exists id <- MappedRows(old(View()), rows) :: id in failing)
    {
      if !enabled {
        return Skipped, [], 0;
      }
      var batch := SelectBatch();
      var savedLedger, savedId := ledger, nextId;
      var fixedCount, errorCount;
      fixedCount, errorCount, f := InsertRows(batch, failing);
      if errorCount > 0 {
        ledger, nextId := savedLedger, savedId;
      } else {
        assert batch[..f] == batch;
      }
      outcome, rows := Done(fixedCount, errorCount), batch;
    }
  }

  /** Row f is the first whose INSERT is issued and fails, or all rows pass. */
  ghost predicate FirstFailure(t: Tables, rows: seq<Uuid>, failing: set<Uuid>, f: nat) {
    && f <= |rows|
    && (forall i :: 0 <= i < |rows| ==> rows[i] in t.requests)
    && (forall i :: 0 <= i < f ==> !(Mapped(t.requests[rows[i]]) && rows[i] in failing))
    && (f < |rows| ==> Mapped(t.requests[rows[f]]) && rows[f] in failing)
  }

  /** The insert loop before row k, when the transaction holds what the rows before f inserted. */
  ghost predicate Progress(
    t: Tables, yearOf: int -> int, rows: seq<Uuid>, failing: set<Uuid>, k: nat, f: nat, now: Tables, fixed: nat,
    errors: nat)
    requires Distinct(rows) && k <= |rows| && forall i :: 0 <= i < |rows| ==> rows[i] in t.requests
  {
    && f <= k && (errors == 0 <==> f == k)
    && (forall i :: 0 <= i < f ==> !(Mapped(t.requests[rows[i]]) && rows[i] in failing))
    && (f < k ==> Mapped(t.requests[rows[f]]) && rows[f] in failing)
    && now == Fix(t, yearOf, rows[..f]) && |now.ledger| == |t.ledger| + fixed
    && fixed == |MappedRows(t, rows[..f])| && fixed + errors == |MappedRows(t, rows[..k])|
  }

  lemma ProgressStep(
    t: Tables, yearOf: int -> int, rows: seq<Uuid>, failing: set<Uuid>, k: nat, f: nat, now: Tables, fixed: nat,
    errors: nat)
    requires Distinct(rows) && k < |rows| && forall i :: 0 <= i < |rows| ==> rows[i] in t.requests
    requires Progress(t, yearOf, rows, failing, k, f, now, fixed, errors)
    ensures var mapped := Mapped(t.requests[rows[k]]);
            if mapped && (errors > 0 || rows[k] in failing)
            then Progress(t, yearOf, rows, failing, k + 1, f, now, fixed, errors + 1)
            else Progress(t, yearOf, rows, failing, k + 1, if errors == 0 then k + 1 else f,
                          if errors == 0 then FixOne(now, yearOf, rows[k]) else now,
                          fixed + if mapped then 1 else 0, errors)
  {
    OneMoreRow(t, yearOf, rows, k);
  }

  lemma OneMoreRow(t: Tables, yearOf: int -> int, rows: seq<Uuid>, k: nat)
    requires Distinct(rows) && k < |rows| && forall i :: 0 <= i < |rows| ==> rows[i] in t.requests
    ensures Fix(t, yearOf, rows[..k + 1]) == FixOne(Fix(t, yearOf, rows[..k]), yearOf, rows[k])
    ensures |MappedRows(t, rows[..k + 1])| == |MappedRows(t, rows[..k])| + if Mapped(t.requests[rows[k]]) then 1 else 0
  {
    MappedRowsGrow(t, rows[..k], rows[k]);
    assert rows[..k] + [rows[k]] == rows[..k + 1];
    assert rows[..k + 1][..k] == rows[..k];
  }

  lemma MappedRowsGrow(t: Tables, rows: seq<Uuid>, id: Uuid)
    requires id in t.requests && id !in rows
    requires forall r <- rows :: r in t.requests
    ensures |MappedRows(t, rows + [id])| == |MappedRows(t, rows)| + if Mapped(t.requests[id]) then 1 else 0
  {
    assert MappedRows(t, rows + [id]) == MappedRows(t, rows) + if Mapped(t.requests[id]) then {id} else {};
  }
}
