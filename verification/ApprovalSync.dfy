/**
 Phase 2 of sync_approvals.py: leaves are reconciled with the approvals service, and an
 approved leave without a wallet transaction is deducted and flagged.

 The query for the approvals has no ORDER BY, so every run may see them in another order.
 `writes` says whether deduct_balance appends a transaction that references the leave.
 */
module ApprovalSync {
  import opened Wrappers

  type Uuid = nat

  datatype LeaveStatus = Pending | Approved | ApprovedConditional | OtherStatus

  datatype Leave = Leave(status: LeaveStatus, deducted: bool, deductionDetails: map<string, real>, daysRequested: real)

  datatype Transaction = Transaction(referenceId: Uuid, breakdown: map<string, real>)

  datatype State = State(leaves: map<Uuid, Leave>, transactions: seq<Transaction>)

  datatype AppStatus = AppApproved | AppConditional | AppOther

  datatype Approval = Approval(entityId: Uuid, status: AppStatus)

  predicate HasTx(transactions: seq<Transaction>, id: Uuid) {
    exists t <- transactions :: t.referenceId == id
  }

  /** Missing or empty details are falsy. */
  function Breakdown(leave: Leave): map<string, real> {
    if leave.deductionDetails == map[] then map["vacation" := leave.daysRequested] else leave.deductionDetails
  }

  // ---------------------------------------------------------------- one visit, in its three effects

  /** Approving a leave also sets its flag; approving it conditionally does not. */
  function Decided(leave: Leave, decision: AppStatus): Leave {
    if leave.status != Pending then leave
    else match decision
         case AppApproved => leave.(status := Approved, deducted := true)
         case AppConditional => leave.(status := ApprovedConditional)
         case AppOther => leave
  }

  function ApproveStep(s: State, a: Approval): State {
    if a.entityId in s.leaves && s.leaves[a.entityId].status == Pending && a.status != AppOther then
      s.(leaves := s.leaves[a.entityId := Decided(s.leaves[a.entityId], a.status)])
    else s
  }

  predicate IsApproved(s: State, id: Uuid) {
    id in s.leaves && s.leaves[id].status == Approved
  }

  function DeductStep(s: State, a: Approval, writes: bool): State {
    if IsApproved(s, a.entityId) && !HasTx(s.transactions, a.entityId) && writes then
      s.(transactions := s.transactions + [Transaction(a.entityId, Breakdown(s.leaves[a.entityId]))])
    else s
  }

  function FlagStep(s: State, a: Approval): State {
    if IsApproved(s, a.entityId) && !s.leaves[a.entityId].deducted then
      s.(leaves := s.leaves[a.entityId := s.leaves[a.entityId].(deducted := true)])
    else s
  }

  /** The state after the first k effects of a visit: where a crash or a commit may fall. */
  function Partial(s: State, a: Approval, writes: bool, k: nat): State {
    if k == 0 then s
    else if k == 1 then ApproveStep(s, a)
    else if k == 2 then DeductStep(ApproveStep(s, a), a, writes)
    else FlagStep(DeductStep(ApproveStep(s, a), a, writes), a)
  }

  function Visit(s: State, a: Approval, writes: bool): State {
    Partial(s, a, writes, 3)
  }

  function Sync(s: State, approvals: seq<Approval>, writes: bool): State {
    if approvals == [] then s
    else Visit(Sync(s, approvals[..|approvals| - 1], writes), approvals[|approvals| - 1], writes)
  }

  // ---------------------------------------------------------------- the script

  class SyncSession {
    var leaves: map<Uuid, Leave>
    var transactions: seq<Transaction>
    /** Leaves whose flag was set by SQL only; the loaded object still says False. */
    var stale: set<Uuid>
    /** What a crash rolls back to, and all it could have rolled back to so far. */
    var committed: State
    ghost var commits: seq<State>
    const writes: bool

    constructor (leaves: map<Uuid, Leave>, transactions: seq<Transaction>, writes: bool)
      ensures View() == committed == State(leaves, transactions) && this.writes == writes
      ensures stale == {} && commits == [committed]
    {
      this.leaves, this.transactions, this.writes, stale := leaves, transactions, writes, {};
      committed, commits := State(leaves, transactions), [State(leaves, transactions)];
    }

    function View(): State
      reads this
    {
      State(leaves, transactions)
    }

    /** One iteration of the loop; it commits when the loaded object of an approved leave lacks the flag. */
    method Reconcile(a: Approval) returns (commit: bool)
      modifies this
      ensures View() == Visit(old(View()), a, writes)
      ensures commit <==> && IsApproved(View(), a.entityId)
                          && (!ApproveStep(old(View()), a).leaves[a.entityId].deducted || a.entityId in old(stale))
      ensures stale == old(stale) + if commit then {a.entityId} else {}
      ensures committed == if commit then View() else old(committed)
      ensures commits == old(commits) + if commit then [View()] else []
    {
      commit := false;
      var id := a.entityId;
      if id !in leaves {
        return;
      }
      if leaves[id].status == Pending && (a.status == AppApproved || a.status == AppConditional) {
        if a.status == AppApproved {
          leaves := leaves[id := leaves[id].(status := Approved, deducted := true)];
        } else {
          leaves := leaves[id := leaves[id].(status := ApprovedConditional)];
        }
      }
      if leaves[id].status == Approved {
        var hasTx := HasTx(transactions, id);
        if !hasTx {
          if writes {
            transactions := transactions + [Transaction(id, Breakdown(leaves[id]))];
          }
          hasTx := true;
        }
        if hasTx && (!leaves[id].deducted || id in stale) {
          leaves := leaves[id := leaves[id].(deducted := true)];
          stale := stale + {id};
          committed := View();
          commits := commits + [committed];
          commit := true;
        }
      }
    }

    /** Phase 2: whatever commit a crash rolls back to, a rerun in the same order ends in the same result. */
    method Phase2(approvals: seq<Approval>)
      requires committed == View() && commits == [committed]
      modifies this
      ensures View() == committed == Sync(old(View()), approvals, writes)
      ensures forall c <- commits :: Sync(c, approvals, writes) == View()
      ensures forall c <- commits :: !Contested(c, approvals) ==>
                forall again :: multiset(again) == multiset(approvals) ==> SameBooks(Sync(c, again, writes), View())
    {
      ghost var start := View();
      for k := 0 to |approvals|
        invariant View() == Sync(start, approvals[..k], writes)
        invariant forall c <- commits :: Sync(c, approvals, writes) == Sync(start, approvals, writes)
      {
        assert approvals[..k + 1][..k] == approvals[..k];
        var commit := Reconcile(approvals[k]);
        if commit {
          RerunFromCrash(start, approvals, k, 3, writes);
        }
      }
      assert approvals[..|approvals|] == approvals;
      committed := View();
      SyncIdempotent(start, approvals, approvals, writes);
      commits := commits + [committed];
      forall c <- commits ensures Sync(c, approvals, writes) == View() {}
      forall c <- commits | !Contested(c, approvals)
        ensures forall again :: multiset(again) == multiset(approvals) ==> SameBooks(Sync(c, again, writes), View())
      {
        OrderMattersIff(c, approvals, writes);
      }
    }
  }

  // ---------------------------------------------------------------- crash and rerun

  lemma {:induction false} SyncConcat(s: State, a: seq<Approval>, b: seq<Approval>, writes: bool)
    ensures Sync(s, a + b, writes) == Sync(Sync(s, a, writes), b, writes)
  {
    if b == [] {
      assert a + b == a;
    } else {
      var n := |b| - 1;
      assert (a + b)[..|a + b| - 1] == a + b[..n];
      SyncConcat(s, a, b[..n], writes);
    }
  }

  lemma HasTxAppend(transactions: seq<Transaction>, t: Transaction, id: Uuid)
    ensures HasTx(transactions + [t], id) <==> HasTx(transactions, id) || t.referenceId == id
  {
    assert (transactions + [t])[|transactions|] == t;
    if HasTx(transactions, id) {
      var i :| 0 <= i < |transactions| && transactions[i].referenceId == id;
      assert (transactions + [t])[i] == transactions[i];
    }
  }

  /** An approval with nothing left to do. */
  ghost predicate Settled(s: State, a: Approval, writes: bool) {
    && ApproveStep(s, a) == s
    && (IsApproved(s, a.entityId) ==>
          s.leaves[a.entityId].deducted && (writes ==> HasTx(s.transactions, a.entityId)))
  }

  lemma SettledMeaning(s: State, a: Approval, writes: bool)
    ensures Settled(s, a, writes) ==> Visit(s, a, writes) == s
  {
  }

  /** A visit settles its own approval and unsettles no other. */
  lemma VisitSettles(s: State, a: Approval, p: Approval, writes: bool)
    ensures Settled(Visit(s, a, writes), a, writes)
    ensures Settled(s, p, writes) ==> Settled(Visit(s, a, writes), p, writes)
  {
    var approved := ApproveStep(s, a);
    var t := Transaction(a.entityId, if a.entityId in s.leaves then Breakdown(approved.leaves[a.entityId]) else map[]);
    HasTxAppend(s.transactions, t, a.entityId);
    HasTxAppend(s.transactions, t, p.entityId);
  }

  /** A visit that was cut short can be resumed. */
  lemma PartialResumes(s: State, a: Approval, writes: bool, k: nat)
    requires k <= 3
    ensures Visit(Partial(s, a, writes, k), a, writes) == Visit(s, a, writes)
  {
    var approved := ApproveStep(s, a);
    var t := Transaction(a.entityId, if a.entityId in s.leaves then Breakdown(approved.leaves[a.entityId]) else map[]);
    HasTxAppend(s.transactions, t, a.entityId);
  }

  /** Between two effects, a settled approval, of whichever leave, does nothing or finishes the visit. */
  lemma PartialStays(s: State, a: Approval, p: Approval, writes: bool, k: nat)
    requires k <= 3 && Settled(s, p, writes)
    ensures Visit(Partial(s, a, writes, k), p, writes) in {Partial(s, a, writes, k), Visit(s, a, writes)}
  {
    if k == 0 {
      SettledMeaning(s, p, writes);
      return;
    }
    var approved := ApproveStep(s, a);
    var t := Transaction(a.entityId, if a.entityId in s.leaves then Breakdown(approved.leaves[a.entityId]) else map[]);
    HasTxAppend(s.transactions, t, a.entityId);
    HasTxAppend(s.transactions, t, p.entityId);
  }

  lemma {:induction false} SyncSettles(s: State, approvals: seq<Approval>, writes: bool, i: nat)
    requires i < |approvals|
    ensures Settled(Sync(s, approvals, writes), approvals[i], writes)
  {
    var n := |approvals| - 1;
    if i < n {
      SyncSettles(s, approvals[..n], writes, i);
    }
    VisitSettles(Sync(s, approvals[..n], writes), approvals[n], approvals[i], writes);
  }

  lemma {:induction false} SyncStaysBetween(c: State, v: State, approvals: seq<Approval>, writes: bool)
    requires forall i :: 0 <= i < |approvals| ==>
               Visit(c, approvals[i], writes) in {c, v} && Visit(v, approvals[i], writes) == v
    ensures Sync(c, approvals, writes) in {c, v}
  {
    if approvals != [] {
      SyncStaysBetween(c, v, approvals[..|approvals| - 1], writes);
    }
  }

  /**
   A crash after any effect of any visit, rolled back to there, followed by a rerun from the
   start, ends in the same state as the run that did not crash.
   */
  lemma RerunFromCrash(start: State, approvals: seq<Approval>, n: nat, k: nat, writes: bool)
    requires n < |approvals| && k <= 3
    ensures Sync(Partial(Sync(start, approvals[..n], writes), approvals[n], writes, k), approvals, writes) ==
            Sync(start, approvals, writes)
  {
    var before, a := Sync(start, approvals[..n], writes), approvals[n];
    var c, v := Partial(before, a, writes, k), Visit(before, a, writes);
    forall i | 0 <= i < n
      ensures Visit(c, approvals[i], writes) in {c, v} && Visit(v, approvals[i], writes) == v
    {
      SyncSettles(start, approvals[..n], writes, i);
      PartialStays(before, a, approvals[i], writes, k);
      VisitSettles(before, a, approvals[i], writes);
      SettledMeaning(v, approvals[i], writes);
    }
    SyncStaysBetween(c, v, approvals[..n], writes);
    PartialResumes(before, a, writes, k);
    VisitSettles(before, a, a, writes);
    SettledMeaning(v, a, writes);
    var upTo, rest := approvals[..n + 1], approvals[n + 1..];
    assert upTo[..n] == approvals[..n];
    assert Sync(c, upTo, writes) == v == Sync(start, upTo, writes);
    assert approvals == upTo + rest;
    SyncConcat(c, upTo, rest, writes);
    SyncConcat(start, upTo, rest, writes);
  }

  /** Running the script again, over the same approvals in any order and number, changes nothing. */
  lemma SyncIdempotent(s: State, approvals: seq<Approval>, again: seq<Approval>, writes: bool)
    requires forall a <- again :: a in approvals
    ensures Sync(Sync(s, approvals, writes), again, writes) == Sync(s, approvals, writes)
  {
    var done := Sync(s, approvals, writes);
    forall j | 0 <= j < |again| ensures Visit(done, again[j], writes) == done {
      var a := again[j];
      assert a in again;
      var i :| 0 <= i < |approvals| && approvals[i] == a;
      SyncSettles(s, approvals, writes, i);
      SettledMeaning(done, approvals[i], writes);
    }
    SyncStaysBetween(done, done, again, writes);
  }

  predicate Concerned(approvals: seq<Approval>, id: Uuid) {
    exists a <- approvals :: a.entityId == id
  }

  // ---------------------------------------------------------------- exactly once

  function CountTx(transactions: seq<Transaction>, id: Uuid): nat {
    if transactions == [] then 0
    else CountTx(transactions[..|transactions| - 1], id)
         + if transactions[|transactions| - 1].referenceId == id then 1 else 0
  }

  lemma {:induction false} CountMeaning(transactions: seq<Transaction>, id: Uuid)
    ensures HasTx(transactions, id) <==> CountTx(transactions, id) > 0
  {
    if transactions != [] {
      var init, last := transactions[..|transactions| - 1], transactions[|transactions| - 1];
      CountMeaning(init, id);
      HasTxAppend(init, last, id);
      assert init + [last] == transactions;
    }
  }

  /** What one visit does to the transactions of a leave. */
  lemma VisitDeducts(s: State, a: Approval, writes: bool, id: Uuid)
    ensures var s' := Visit(s, a, writes);
            && s'.leaves.Keys == s.leaves.Keys && s.transactions <= s'.transactions
            && (IsApproved(s, id) ==> IsApproved(s', id))
            && CountTx(s'.transactions, id) == CountTx(s.transactions, id) +
               if id == a.entityId && IsApproved(s', id) && !HasTx(s.transactions, id) && writes then 1 else 0
  {
    var s' := Visit(s, a, writes);
    if s'.transactions != s.transactions {
      assert s'.transactions[..|s'.transactions| - 1] == s.transactions;
    }
  }

  /** Old transactions stay, and a leave that had one, or is not approved, gets none. */
  lemma {:induction false} NoSecondDeduction(s: State, approvals: seq<Approval>, writes: bool, id: Uuid)
    ensures var s' := Sync(s, approvals, writes);
            && s'.leaves.Keys == s.leaves.Keys
            && s.transactions <= s'.transactions
            && CountTx(s'.transactions, id) <= CountTx(s.transactions, id) + 1
            && (HasTx(s.transactions, id) || !IsApproved(s', id) || !writes ==>
                  CountTx(s'.transactions, id) == CountTx(s.transactions, id))
  {
    if approvals != [] {
      var n := |approvals| - 1;
      var before := Sync(s, approvals[..n], writes);
      NoSecondDeduction(s, approvals[..n], writes, id);
      VisitDeducts(before, approvals[n], writes, id);
      CountMeaning(before.transactions, id);
      CountMeaning(s.transactions, id);
    }
  }

  /**
   When deduct_balance writes, every visited approved leave ends with the flag and a
   transaction: the one it had, or exactly one new one.
   */
  lemma RepairedExactlyOnce(s: State, approvals: seq<Approval>, id: Uuid)
    requires exists a <- approvals :: a.entityId == id
    requires id in Sync(s, approvals, true).leaves && Sync(s, approvals, true).leaves[id].status == Approved
    ensures var s' := Sync(s, approvals, true);
            && s'.leaves[id].deducted && HasTx(s'.transactions, id)
            && CountTx(s'.transactions, id) == if HasTx(s.transactions, id) then CountTx(s.transactions, id) else 1
  {
    var a :| a in approvals && a.entityId == id;
    var i :| 0 <= i < |approvals| && approvals[i] == a;
    SyncSettles(s, approvals, true, i);
    NoSecondDeduction(s, approvals, true, id);
    CountMeaning(s.transactions, id);
    CountMeaning(Sync(s, approvals, true).transactions, id);
  }

  /**
   With the repository's deduct_balance, which is a stub that writes nothing, visited approved
   leaves are flagged all the same, and each has a transaction iff it had one before.
   */
  lemma StubFlagsWithoutTransaction(s: State, approvals: seq<Approval>, id: Uuid)
    requires exists a <- approvals :: a.entityId == id
    requires id in Sync(s, approvals, false).leaves && Sync(s, approvals, false).leaves[id].status == Approved
    ensures Sync(s, approvals, false).leaves[id].deducted
    ensures HasTx(Sync(s, approvals, false).transactions, id) <==> HasTx(s.transactions, id)
  {
    var a :| a in approvals && a.entityId == id;
    var i :| 0 <= i < |approvals| && approvals[i] == a;
    SyncSettles(s, approvals, false, i);
    NoSecondDeduction(s, approvals, false, id);
    CountMeaning(s.transactions, id);
    CountMeaning(Sync(s, approvals, false).transactions, id);
  }

  // ---------------------------------------------------------------- the final state in closed form

  /** Which leaves end approved: those that were, and the pending ones whose first decisive approval says so. */
  function FirstDecision(approvals: seq<Approval>, id: Uuid): AppStatus {
    if approvals == [] then AppOther
    else if approvals[0].entityId == id && approvals[0].status != AppOther then approvals[0].status
    else FirstDecision(approvals[1..], id)
  }

  lemma {:induction false} FirstDecisionAppend(approvals: seq<Approval>, a: Approval, id: Uuid)
    ensures FirstDecision(approvals + [a], id) ==
            if FirstDecision(approvals, id) != AppOther then FirstDecision(approvals, id)
            else if a.entityId == id then a.status else AppOther
  {
    if approvals != [] {
      assert (approvals + [a])[1..] == approvals[1..] + [a];
      FirstDecisionAppend(approvals[1..], a, id);
    }
  }

  /** The first decision is one of the approvals, and there is one if any approval is decisive. */
  lemma {:induction false} FirstDecisionMember(approvals: seq<Approval>, id: Uuid)
    ensures FirstDecision(approvals, id) != AppOther ==> Approval(id, FirstDecision(approvals, id)) in approvals
    ensures Approval(id, AppApproved) in approvals || Approval(id, AppConditional) in approvals ==>
              FirstDecision(approvals, id) != AppOther
  {
    if approvals != [] {
      assert forall a :: a in approvals <==> a == approvals[0] || a in approvals[1..];
      FirstDecisionMember(approvals[1..], id);
    }
  }

  function Flagged(leave: Leave): Leave {
    if leave.status == Approved then leave.(deducted := true) else leave
  }

  /** A run flags the approved leaves it visits, beside what the first decision does. */
  function FinalLeaf(leave: Leave, approvals: seq<Approval>, id: Uuid): Leave {
    var decided := Decided(leave, FirstDecision(approvals, id));
    if Concerned(approvals, id) then Flagged(decided) else decided
  }

  lemma VisitLeaf(s: State, a: Approval, writes: bool, id: Uuid)
    ensures Visit(s, a, writes).leaves.Keys == s.leaves.Keys
    ensures id in s.leaves ==> Visit(s, a, writes).leaves[id] ==
                               if a.entityId == id then Flagged(Decided(s.leaves[id], a.status)) else s.leaves[id]
  {
  }

  lemma FinalLeafStep(leave: Leave, approvals: seq<Approval>, a: Approval, id: Uuid)
    ensures var before := FinalLeaf(leave, approvals, id);
            FinalLeaf(leave, approvals + [a], id) ==
            if a.entityId == id then Flagged(Decided(before, a.status)) else before
  {
    FirstDecisionAppend(approvals, a, id);
    FirstDecisionMember(approvals, id);
    assert Concerned(approvals + [a], id) <==> Concerned(approvals, id) || a.entityId == id by {
      assert forall p :: p in approvals + [a] <==> p in approvals || p == a;
    }
  }

  /** A run of the script decides each leave on its own. */
  lemma {:induction false} FinalLeaves(s: State, approvals: seq<Approval>, writes: bool, id: Uuid)
    ensures Sync(s, approvals, writes).leaves.Keys == s.leaves.Keys
    ensures id in s.leaves ==> Sync(s, approvals, writes).leaves[id] == FinalLeaf(s.leaves[id], approvals, id)
  {
    if approvals != [] {
      var n := |approvals| - 1;
      FinalLeaves(s, approvals[..n], writes, id);
      VisitLeaf(Sync(s, approvals[..n], writes), approvals[n], writes, id);
      assert approvals[..n] + [approvals[n]] == approvals;
      if id in s.leaves {
        FinalLeafStep(s.leaves[id], approvals[..n], approvals[n], id);
      }
    }
  }

  /** Each status follows the first decisive approval; each flag is set exactly on visited approved leaves. */
  lemma FinalStatus(s: State, approvals: seq<Approval>, writes: bool, id: Uuid)
    requires id in s.leaves
    ensures var s' := Sync(s, approvals, writes);
            id in s'.leaves && s'.leaves[id].status ==
            if s.leaves[id].status != Pending then s.leaves[id].status
            else match FirstDecision(approvals, id)
                 case AppApproved => Approved
                 case AppConditional => ApprovedConditional
                 case AppOther => Pending
    ensures var s' := Sync(s, approvals, writes);
            && id in s'.leaves
            && (s'.leaves[id].deducted <==>
                  || s.leaves[id].deducted
                  || (s'.leaves[id].status == Approved && exists a <- approvals :: a.entityId == id))
    ensures var before, after := s.leaves[id], Sync(s, approvals, writes).leaves[id];
            after.deductionDetails == before.deductionDetails && after.daysRequested == before.daysRequested
  {
    FinalLeaves(s, approvals, writes, id);
    FirstDecisionMember(approvals, id);
  }

  predicate Deserves(s: State, approvals: seq<Approval>, writes: bool, id: Uuid) {
    && writes && id in s.leaves && Concerned(approvals, id)
    && FinalLeaf(s.leaves[id], approvals, id).status == Approved && !HasTx(s.transactions, id)
  }

  function Gained(s: State, approvals: seq<Approval>, writes: bool, t: Transaction): nat {
    if Deserves(s, approvals, writes, t.referenceId) && t.breakdown == Breakdown(s.leaves[t.referenceId]) then 1 else 0
  }

  lemma VisitPays(s: State, a: Approval, writes: bool, t: Transaction)
    ensures var s', id := Visit(s, a, writes), t.referenceId;
            var pays := writes && a.entityId == id && IsApproved(s', id) && !HasTx(s.transactions, id);
            && (HasTx(s'.transactions, id) <==> HasTx(s.transactions, id) || pays)
            && multiset(s'.transactions)[t] == multiset(s.transactions)[t] +
               if pays && t.breakdown == Breakdown(s.leaves[id]) then 1 else 0
  {
    if a.entityId in s.leaves {
      var added := Transaction(a.entityId, Breakdown(ApproveStep(s, a).leaves[a.entityId]));
      HasTxAppend(s.transactions, added, t.referenceId);
      assert multiset(s.transactions + [added]) == multiset(s.transactions) + multiset{added};
    }
  }

  /** A leave comes to deserve a transaction in a visit of its own that leaves it approved. */
  lemma DeservesGrows(s: State, approvals: seq<Approval>, writes: bool, id: Uuid)
    requires approvals != []
    ensures var n := |approvals| - 1;
            Deserves(s, approvals, writes, id) <==>
            || Deserves(s, approvals[..n], writes, id)
            || (&& writes && approvals[n].entityId == id && !HasTx(s.transactions, id)
                && id in s.leaves && FinalLeaf(s.leaves[id], approvals, id).status == Approved)
  {
    var n := |approvals| - 1;
    FirstDecisionAppend(approvals[..n], approvals[n], id);
    assert approvals[..n] + [approvals[n]] == approvals;
    assert Concerned(approvals, id) <==> Concerned(approvals[..n], id) || approvals[n].entityId == id by {
      assert forall p :: p in approvals <==> p in approvals[..n] || p == approvals[n];
    }
    FirstDecisionMember(approvals[..n], id);
  }

  /** The transactions afterwards: those before, and one for each deserving leave. */
  lemma {:induction false} FinalTransactions(s: State, approvals: seq<Approval>, writes: bool, t: Transaction)
    ensures var s' := Sync(s, approvals, writes);
            && multiset(s'.transactions)[t] == multiset(s.transactions)[t] + Gained(s, approvals, writes, t)
            && (HasTx(s'.transactions, t.referenceId) <==>
                  HasTx(s.transactions, t.referenceId) || Deserves(s, approvals, writes, t.referenceId))
  {
    if approvals != [] {
      var n, id := |approvals| - 1, t.referenceId;
      FinalTransactions(s, approvals[..n], writes, t);
      VisitPays(Sync(s, approvals[..n], writes), approvals[n], writes, t);
      FinalLeaves(s, approvals[..n], writes, id);
      FinalLeaves(s, approvals, writes, id);
      DeservesGrows(s, approvals, writes, id);
    }
  }

  /**
   Every new transaction, in terms of columns: its leave is visited, ends approved and had no
   transaction, it is the only one of that leave, and it carries the leave's deduction details, or
   the requested days as vacation when there are none. RepairedExactlyOnce is the converse.
   */
  lemma NewTransactions(s: State, approvals: seq<Approval>, i: nat)
    requires |s.transactions| <= i < |Sync(s, approvals, true).transactions|
    ensures var s' := Sync(s, approvals, true);
            var t := s'.transactions[i];
            var id := t.referenceId;
            && id in s.leaves && id in s'.leaves && s'.leaves[id].status == Approved
            && (exists a <- approvals :: a.entityId == id)
            && (forall old' <- s.transactions :: old'.referenceId != id)
            && (|s.leaves[id].deductionDetails| > 0 ==> t.breakdown == s.leaves[id].deductionDetails)
            && (|s.leaves[id].deductionDetails| == 0 ==>
                  t.breakdown == map["vacation" := s.leaves[id].daysRequested])
            && (forall k :: 0 <= k < |s'.transactions| && s'.transactions[k].referenceId == id ==> k == i)
  {
    var s' := Sync(s, approvals, true);
    var t := s'.transactions[i];
    NoSecondDeduction(s, approvals, true, t.referenceId);
    NewHasOwner(s, approvals, t, i);
    FinalLeaves(s, approvals, true, t.referenceId);
    CountMeaning(s.transactions, t.referenceId);
    forall k | 0 <= k < |s'.transactions| && s'.transactions[k].referenceId == t.referenceId ensures k == i {
      TwoCounted(s'.transactions, t.referenceId, i, k);
    }
  }

  lemma NewHasOwner(s: State, approvals: seq<Approval>, t: Transaction, i: nat)
    requires |s.transactions| <= i < |Sync(s, approvals, true).transactions|
    requires t == Sync(s, approvals, true).transactions[i]
    ensures Gained(s, approvals, true, t) == 1
  {
    var after := Sync(s, approvals, true).transactions;
    NoSecondDeduction(s, approvals, true, t.referenceId);
    FinalTransactions(s, approvals, true, t);
    var added := after[|s.transactions|..];
    assert after == s.transactions + added;
    assert added[i - |s.transactions|] == t;
    assert multiset(after) == multiset(s.transactions) + multiset(added);
    assert t in multiset(added);
  }

  lemma {:induction false} TwoCounted(transactions: seq<Transaction>, id: Uuid, i: nat, k: nat)
    requires i < |transactions| && k < |transactions|
    requires transactions[i].referenceId == transactions[k].referenceId == id
    requires CountTx(transactions, id) <= 1
    ensures i == k
  {
    var n := |transactions| - 1;
    var init := transactions[..n];
    CountMeaning(init, id);
    if i < n {
      assert init[i] in init;
    }
    if k < n {
      assert init[k] in init;
    }
    if i < n && k < n {
      TwoCounted(init, id, i, k);
    }
  }

  // ---------------------------------------------------------------- reruns in another order

  /** Equal books: the same leaves, and the same transactions in some order. */
  predicate SameBooks(s: State, t: State) {
    s.leaves == t.leaves && multiset(s.transactions) == multiset(t.transactions)
  }

  /** Some leave that is still pending has been both approved and conditionally approved. */
  ghost predicate Contested(s: State, approvals: seq<Approval>) {
    exists id <- s.leaves :: s.leaves[id].status == Pending &&
      Approval(id, AppApproved) in approvals && Approval(id, AppConditional) in approvals
  }

  /** Without a contested leave, the final books do not depend on the order. */
  lemma UncontestedOrder(s: State, a: seq<Approval>, b: seq<Approval>, writes: bool)
    requires multiset(a) == multiset(b) && !Contested(s, a)
    ensures SameBooks(Sync(s, a, writes), Sync(s, b, writes))
  {
    var s1, s2 := Sync(s, a, writes), Sync(s, b, writes);
    assert forall p :: p in a <==> p in multiset(a);
    assert forall p :: p in b <==> p in multiset(b);
    forall id ensures s1.leaves.Keys == s2.leaves.Keys && (id in s1.leaves ==> s1.leaves[id] == s2.leaves[id])
              ensures id in s.leaves ==> FinalLeaf(s.leaves[id], a, id) == FinalLeaf(s.leaves[id], b, id)
    {
      FinalLeaves(s, a, writes, id);
      FinalLeaves(s, b, writes, id);
      FirstDecisionMember(a, id);
      FirstDecisionMember(b, id);
    }
    forall t ensures multiset(s1.transactions)[t] == multiset(s2.transactions)[t] {
      FinalTransactions(s, a, writes, t);
      FinalTransactions(s, b, writes, t);
    }
  }

  /** Moving a decisive approval to the front makes it the first decision. */
  lemma FrontDecides(s: State, approvals: seq<Approval>, id: Uuid, decision: AppStatus, writes: bool)
    returns (again: seq<Approval>)
    requires id in s.leaves && s.leaves[id].status == Pending
    requires decision != AppOther && Approval(id, decision) in approvals
    ensures multiset(again) == multiset(approvals)
    ensures id in Sync(s, again, writes).leaves
    ensures Sync(s, again, writes).leaves[id].status == Decided(s.leaves[id], decision).status
  {
    var i :| 0 <= i < |approvals| && approvals[i] == Approval(id, decision);
    again := [approvals[i]] + (approvals[..i] + approvals[i + 1..]);
    assert approvals == approvals[..i] + [approvals[i]] + approvals[i + 1..];
    FinalStatus(s, again, writes, id);
  }

  /**
   Every order of the approvals gives the same books iff no pending leave is contested. With
   RerunFromCrash this says when a rerun after a crash may see the approvals in any order.
   */
  lemma OrderMattersIff(s: State, approvals: seq<Approval>, writes: bool)
    ensures (forall again :: multiset(again) == multiset(approvals) ==>
                               SameBooks(Sync(s, again, writes), Sync(s, approvals, writes)))
            <==> !Contested(s, approvals)
  {
    if Contested(s, approvals) {
      var id :| id in s.leaves && s.leaves[id].status == Pending &&
                Approval(id, AppApproved) in approvals && Approval(id, AppConditional) in approvals;
      var a := FrontDecides(s, approvals, id, AppApproved, writes);
      var b := FrontDecides(s, approvals, id, AppConditional, writes);
      assert Sync(s, a, writes).leaves != Sync(s, b, writes).leaves;
    } else {
      forall again | multiset(again) == multiset(approvals)
        ensures SameBooks(Sync(s, again, writes), Sync(s, approvals, writes))
      {
        UncontestedOrder(s, approvals, again, writes);
      }
    }
  }

  /**
   After a crash at any effect of any visit, a rerun ends in the books of the uninterrupted run
   for every order of the approvals iff no leave still pending at the crash is contested.
   */
  lemma ReorderedRerunIff(start: State, approvals: seq<Approval>, n: nat, k: nat, writes: bool)
    requires n < |approvals| && k <= 3
    ensures var crashed := Partial(Sync(start, approvals[..n], writes), approvals[n], writes, k);
            (forall again :: multiset(again) == multiset(approvals) ==>
                               SameBooks(Sync(crashed, again, writes), Sync(start, approvals, writes)))
            <==> !Contested(crashed, approvals)
  {
    RerunFromCrash(start, approvals, n, k, writes);
    OrderMattersIff(Partial(Sync(start, approvals[..n], writes), approvals[n], writes, k), approvals, writes);
  }
}
