/**
 The reconciliation job in terms of table columns only: which rows a run of the auto-fix adds
 and what they hold, and what the anomalies of the detector hold. The results mention none of
 the functions by which the job is modelled, other than Run and the two reports.
 */
module RepairColumns {
  import opened Wrappers
  import opened Reconciliation
  import opened LedgerRepair

  // ---------------------------------------------------------------- the auto-fix

  ghost predicate UsageRowIn(ledger: seq<LedgerEntry>, id: Uuid) {
    exists e <- ledger :: e.referenceType == "LEAVE_REQUEST" && e.referenceId == id && e.entryType == "USAGE"
  }

  /** An approved or conditionally approved request whose balance was deducted and that has no USAGE row. */
  ghost predicate Owed(t: Tables, id: Uuid) {
    && id in t.requests && t.requests[id].deducted
    && (t.requests[id].status == Approved || t.requests[id].status == ApprovedConditional)
    && !UsageRowIn(t.ledger, id)
  }

  const BALANCE_OF_CODE := map[
    "FER" := "VACATION_AC", "ROL" := "ROL", "PER" := "PERMITS", "L104" := "PERMITS", "DON" := "PERMITS"]

  /** The USAGE row of a request; only its id is free. */
  ghost predicate IsRowOf(e: LedgerEntry, r: LeaveRequest, id: Uuid, yearOf: int -> int) {
    && e.entryType == "USAGE" && e.referenceType == "LEAVE_REQUEST" && e.referenceId == id
    && r.typeCode in BALANCE_OF_CODE && e.balanceType == BALANCE_OF_CODE[r.typeCode]
    && e.amount == r.days && e.userId == r.userId && e.year == yearOf(r.approvedAt)
    && e.referenceStatus == "APPROVED" && e.createdBy == r.approvedBy
  }

  lemma CodesAgree(code: string)
    ensures code in BALANCE_OF_CODE <==> BalanceTypeOf(code).Some?
    ensures code in BALANCE_OF_CODE ==> BalanceTypeOf(code) == Some(BALANCE_OF_CODE[code])
  {
  }

  lemma UsageRows(ledger: seq<LedgerEntry>, id: Uuid)
    ensures UsageRowIn(ledger, id) <==> HasUsage(ledger, id)
  {
    if UsageRowIn(ledger, id) {
      var e :| e in ledger && e.referenceType == "LEAVE_REQUEST" && e.referenceId == id && e.entryType == "USAGE";
      assert IsUsageOf(e, id);
    }
  }

  lemma OwedIsMissing(t: Tables, id: Uuid)
    ensures Owed(t, id) <==> id in Missing(t)
  {
    UsageRows(t.ledger, id);
  }

  /** What Fix appends: one row for each listed request of a known code. */
  lemma {:induction false} AppendedRows(t: Tables, yearOf: int -> int, rows: seq<Uuid>)
    requires Distinct(rows) && forall id <- rows :: id in t.requests
    ensures var t' := Fix(t, yearOf, rows);
            && t.ledger <= t'.ledger
            && (forall i :: |t.ledger| <= i < |t'.ledger| ==>
                  var id := t'.ledger[i].referenceId;
                  id in rows && IsRowOf(t'.ledger[i], t.requests[id], id, yearOf))
            && (forall i, j :: |t.ledger| <= i < j < |t'.ledger| ==>
                  t'.ledger[i].referenceId != t'.ledger[j].referenceId)
            && (forall id <- rows :: t.requests[id].typeCode in BALANCE_OF_CODE ==>
                  exists i :: |t.ledger| <= i < |t'.ledger| && t'.ledger[i].referenceId == id)
  {
    if rows != [] {
      var init, last := rows[..|rows| - 1], rows[|rows| - 1];
      AppendedRows(t, yearOf, init);
      AppendedOneMore(t, Fix(t, yearOf, init), yearOf, init, last);
      assert rows == init + [last];
    }
  }

  lemma AppendedOneMore(t: Tables, mid: Tables, yearOf: int -> int, rows: seq<Uuid>, last: Uuid)
    requires last !in rows && last in t.requests && mid.requests == t.requests && t.ledger <= mid.ledger
    requires forall id <- rows :: id in t.requests
    requires forall i :: |t.ledger| <= i < |mid.ledger| ==>
               var id := mid.ledger[i].referenceId;
               id in rows && IsRowOf(mid.ledger[i], t.requests[id], id, yearOf)
    requires forall i, j :: |t.ledger| <= i < j < |mid.ledger| ==>
               mid.ledger[i].referenceId != mid.ledger[j].referenceId
    requires forall id <- rows :: t.requests[id].typeCode in BALANCE_OF_CODE ==>
               exists i :: |t.ledger| <= i < |mid.ledger| && mid.ledger[i].referenceId == id
    ensures var t' := FixOne(mid, yearOf, last);
            && t.ledger <= t'.ledger
            && (forall i :: |t.ledger| <= i < |t'.ledger| ==>
                  var id := t'.ledger[i].referenceId;
                  (id in rows || id == last) && IsRowOf(t'.ledger[i], t.requests[id], id, yearOf))
            && (forall i, j :: |t.ledger| <= i < j < |t'.ledger| ==>
                  t'.ledger[i].referenceId != t'.ledger[j].referenceId)
            && (forall id :: (id in rows || id == last) && t.requests[id].typeCode in BALANCE_OF_CODE ==>
                  exists i :: |t.ledger| <= i < |t'.ledger| && t'.ledger[i].referenceId == id)
  {
    var t' := FixOne(mid, yearOf, last);
    CodesAgree(t.requests[last].typeCode);
    if t.requests[last].typeCode in BALANCE_OF_CODE {
      var n := |mid.ledger|;
      assert t'.ledger == mid.ledger + [t'.ledger[n]];
      assert IsRowOf(t'.ledger[n], t.requests[last], last, yearOf);
      forall id | id in rows && t.requests[id].typeCode in BALANCE_OF_CODE
        ensures exists i :: |t.ledger| <= i < |t'.ledger| && t'.ledger[i].referenceId == id
      {
        var i :| |t.ledger| <= i < n && mid.ledger[i].referenceId == id;
        assert t'.ledger[i] == mid.ledger[i];
      }
    } else {
      assert t' == mid;
    }
  }

  /** `limit` other requests that are owed a row and were approved no later than `id`. */
  ghost predicate CrowdedOut(t: Tables, limit: nat, id: Uuid, others: seq<Uuid>) {
    && |others| == limit && (forall i, j :: 0 <= i < j < |others| ==> others[i] != others[j])
    && forall o <- others :: o != id && Owed(t, o) && id in t.requests &&
                             t.requests[o].approvedAt <= t.requests[id].approvedAt
  }

  /**
   What one run adds: only rows of requests that are owed one, at most one each; and a request
   that is owed a row of a known code gets it, unless `limit` others are no newer.
   */
  lemma RunInColumns(t: Tables, yearOf: int -> int, limit: nat, t': Tables)
    requires Run(t, yearOf, limit, t')
    ensures t'.requests == t.requests && t.ledger <= t'.ledger && |t'.ledger| - |t.ledger| <= limit
    ensures forall i :: |t.ledger| <= i < |t'.ledger| ==>
              var id := t'.ledger[i].referenceId;
              Owed(t, id) && IsRowOf(t'.ledger[i], t.requests[id], id, yearOf)
    ensures forall i, j :: |t.ledger| <= i < j < |t'.ledger| ==>
              t'.ledger[i].referenceId != t'.ledger[j].referenceId
    ensures forall id :: Owed(t, id) && t.requests[id].typeCode in BALANCE_OF_CODE ==>
              || (exists i :: |t.ledger| <= i < |t'.ledger| && t'.ledger[i].referenceId == id)
              || (exists others :: CrowdedOut(t, limit, id, others))
  {
    var rows: seq<Uuid> :| IsBatch(t, limit, rows) && t' == Fix(t, yearOf, rows);
    forall id ensures Owed(t, id) <==> id in Missing(t) {
      OwedIsMissing(t, id);
    }
    AppendedRows(t, yearOf, rows);
    AtMostRows(t.ledger, t'.ledger, rows);
    forall id | Owed(t, id) && id !in rows ensures CrowdedOut(t, limit, id, rows) {
    }
  }

  lemma AtMostRows(old': seq<LedgerEntry>, new': seq<LedgerEntry>, rows: seq<Uuid>)
    requires old' <= new' && forall i :: |old'| <= i < |new'| ==> new'[i].referenceId in rows
    requires forall i, j :: |old'| <= i < j < |new'| ==> new'[i].referenceId != new'[j].referenceId
    ensures |new'| - |old'| <= |rows|
  {
    var added := seq(|new'| - |old'|, i requires 0 <= i < |new'| - |old'| => new'[|old'| + i].referenceId);
    DistinctSize(added);
    assert Elems(added) <= Elems(rows);
    SubsetSize(Elems(added), Elems(rows));
    ElemsSize(rows);
  }

  lemma {:induction false} ElemsSize(s: seq<Uuid>)
    ensures |Elems(s)| <= |s|
  {
    if s != [] {
      ElemsSize(s[1..]);
      assert s == [s[0]] + s[1..];
      assert Elems(s) == {s[0]} + Elems(s[1..]);
    }
  }

  /** A run that is not cut off by the limit gives every owed request of a known code its row. */
  lemma RunWithinLimit(t: Tables, yearOf: int -> int, limit: nat, t': Tables, owed: set<Uuid>, id: Uuid)
    requires Run(t, yearOf, limit, t')
    requires (forall o :: Owed(t, o) ==> o in owed) && |owed| <= limit
    requires Owed(t, id) && t.requests[id].typeCode in BALANCE_OF_CODE
    ensures exists i :: && |t.ledger| <= i < |t'.ledger| && IsRowOf(t'.ledger[i], t.requests[id], id, yearOf)
                        && forall k :: |t.ledger| <= k < |t'.ledger| && t'.ledger[k].referenceId == id ==> k == i
  {
    RunInColumns(t, yearOf, limit, t');
    if exists others: seq<Uuid> :: CrowdedOut(t, limit, id, others) {
      var others: seq<Uuid> :| CrowdedOut(t, limit, id, others);
      DistinctSize(others);
      assert id !in Elems(others) && Elems(others) + {id} <= owed;
      SubsetSize(Elems(others) + {id}, owed);
    }
  }

  // ---------------------------------------------------------------- the detector

  /** The leaves report: its items, column by column. */
  lemma LeavesReportInColumns(t: Tables, report: seq<Anomaly>)
    requires LeavesReport(t, report)
    ensures forall i, j :: 0 <= i < j < |report| ==> report[i] != report[j]
    ensures forall a :: a in report <==>
              || (exists id :: && id in t.requests && t.requests[id].status == Approved && t.requests[id].deducted
                               && !UsageRowIn(t.ledger, id)
                               && a == Anomaly("MISSING_LEDGER_ENTRY", "HIGH", "LEAVE_REQUEST", id,
                                               LeaveDetails(t.requests[id].userId, t.requests[id].approvedAt,
                                                            t.requests[id].days)))
              || (exists e <- t.ledger :: && e.referenceType == "LEAVE_REQUEST" && e.entryType == "USAGE"
                                          && (e.referenceId in t.requests ==>
                                                && t.requests[e.referenceId].status != Approved
                                                && t.requests[e.referenceId].status != ApprovedConditional)
                                          && a == Anomaly("ORPHAN_LEDGER_ENTRY", "MEDIUM", "TIME_LEDGER", e.id,
                                                          EntryDetails(e.referenceId, e.userId, e.amount)))
  {
    forall id ensures id in Reported(t) <==> && id in t.requests && t.requests[id].status == Approved
                                             && t.requests[id].deducted && !UsageRowIn(t.ledger, id)
    {
      UsageRows(t.ledger, id);
    }
    forall e | e in t.ledger
      ensures e in Orphans(t) <==>
              && e.referenceType == "LEAVE_REQUEST" && e.entryType == "USAGE"
              && (e.referenceId in t.requests ==> && t.requests[e.referenceId].status != Approved
                                                  && t.requests[e.referenceId].status != ApprovedConditional)
    {
    }
  }

  /** The expenses report likewise; a zero estimate shows as None. */
  lemma ExpensesReportInColumns(trips: map<Uuid, Trip>, entries: seq<ExpenseEntry>, report: seq<Anomaly>)
    requires ExpensesReport(trips, entries, report)
    ensures forall i, j :: 0 <= i < j < |report| ==> report[i] != report[j]
    ensures forall a :: a in report <==>
              exists id :: && id in trips && trips[id].approved && trips[id].approvedAt.Some?
                           && !(exists e <- entries :: e.referenceType == "TRIP" && e.referenceId == id
                                                       && e.entryType == "BUDGET_ALLOCATION")
                           && a.anomalyType == "MISSING_BUDGET_ALLOCATION" && a.severity == "HIGH"
                           && a.entityType == "BUSINESS_TRIP" && a.entityId == id && a.details.TripDetails?
                           && a.details.tripUser == trips[id].userId
                           && Some(a.details.tripApprovedAt) == trips[id].approvedAt
                           && a.details.estimatedTotal ==
                              (if trips[id].estimatedTotal == Some(0.0) then None else trips[id].estimatedTotal)
  {
    forall id ensures id in Unallocated(trips, entries) <==>
                      && id in trips && trips[id].approved && trips[id].approvedAt.Some?
                      && !(exists e <- entries :: e.referenceType == "TRIP" && e.referenceId == id
                                                  && e.entryType == "BUDGET_ALLOCATION")
    {
    }
  }
}
