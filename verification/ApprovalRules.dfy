/**
 The rules of the approval handlers, stated without their code: who may create, approve and
 reject a request, and when a withdrawal is approved and what that changes.
 */
module ApprovalRules {
  import opened Common
  import opened DecimalText
  import opened AdminRoles
  import opened Approvals
  import opened QuorumProofs

  // ---------------------------------------------------------------- requests

  /** A withdrawal request must parse to a stored, PENDING withdrawal whose amount the client does not contradict. */
  predicate NamesPendingPayout(payouts: map<int, Payout>, entityId: string, clientAmount: int) {
    var id := ParseInt(entityId);
    && id.Some? && id.value != 0 && id.value in payouts && payouts[id.value].status == PayoutPending
    && (clientAmount > 0 ==> clientAmount == payouts[id.value].amount)
  }

  predicate MayCreate(db: Db, action: ActionType, entityId: string, clientAmount: int, userId: int) {
    && HasActionPermission(Resolve(db.directory, userId), action)
    && (action == Withdrawal ==> NamesPendingPayout(db.payouts, entityId, clientAmount))
  }

  /** The stored amount for a withdrawal, the client's for anything else. */
  function RequestAmount(db: Db, action: ActionType, entityId: string, clientAmount: int): int
    requires action == Withdrawal ==> NamesPendingPayout(db.payouts, entityId, clientAmount)
  {
    if action == Withdrawal then db.payouts[ParseInt(entityId).value].amount else clientAmount
  }

  /** A request is created exactly by those allowed, for the authoritative amount, automatic iff it needs nobody. */
  lemma CreateExactly(db: Db, action: ActionType, entityId: string, clientAmount: int, userId: int, at: int)
    ensures var r := ReadCreate(db, action, entityId, clientAmount, userId, at);
            && (r.Ok? <==> MayCreate(db, action, entityId, clientAmount, userId))
            && (r.Ok? ==>
                  var q := r.value.request;
                  && q.action == action && q.entityId == entityId && q.requestedBy == userId
                  && q.amount == RequestAmount(db, action, entityId, clientAmount)
                  && (q.status == AutoApproved <==>
                        q.amount < 1_000 * UNIT && action != UserBan && action != VendorTierChange)
                  && (q.status != AutoApproved ==> q.status == Pending && q.approvals == []))
  {
    ApprovalsNeeded(action, clientAmount);
    if action == Withdrawal && NamesPendingPayout(db.payouts, entityId, clientAmount) {
      ApprovalsNeeded(action, db.payouts[ParseInt(entityId).value].amount);
    }
  }

  /** Finance or Compliance by live role, the approver's own or an earlier one's. */
  predicate FinanceTakesPart(directory: Directory, approvals: seq<Stamp>, userId: int) {
    || FinanceOrCompliance(Resolve(directory, userId))
    || exists i :: 0 <= i < |approvals| && FinanceOrCompliance(Resolve(directory, approvals[i].userId))
  }

  predicate MayApprove(db: Db, requestId: nat, userId: int) {
    && requestId < |db.requests|
    && var r := db.requests[requestId];
    && r.status == Pending && r.requestedBy != userId
    && (forall i :: 0 <= i < |r.approvals| ==> r.approvals[i].userId != userId)
    && MayStamp(Resolve(db.directory, userId), r.action, r.amount)
    && (r.amount >= 50_000 * UNIT ==> FinanceTakesPart(db.directory, r.approvals, userId))
  }

  /** An approval is decided exactly for those allowed, on the approvals seen, stamped with the live role. */
  lemma ApproveExactly(db: Db, requestId: nat, userId: int, at: int)
    ensures var r := ReadApprove(db, requestId, userId, at);
            && (r.Ok? <==> MayApprove(db, requestId, userId))
            && (r.Ok? ==> r.value == ApproveTicket(requestId, db.requests[requestId].approvals,
                                                   Stamp(userId, Resolve(db.directory, userId), false, at)))
  {
    if requestId < |db.requests| {
      WhoTheTierAdmits(Resolve(db.directory, userId), db.requests[requestId].amount);
    }
  }

  predicate MayReject(db: Db, requestId: nat, userId: int) {
    requestId < |db.requests| && db.requests[requestId].status == Pending
    && HasActionPermission(Resolve(db.directory, userId), db.requests[requestId].action)
  }

  lemma RejectExactly(db: Db, requestId: nat, userId: int)
    ensures var r := RejectRequest(db, requestId, userId);
            && (r.Ok? <==> MayReject(db, requestId, userId))
            && (r.Ok? ==> && r.value.directory == db.directory && r.value.payouts == db.payouts
                          && r.value.requests == db.requests[requestId := db.requests[requestId].(status := Rejected)])
  {
  }

  // ---------------------------------------------------------------- withdrawals

  /** An APPROVED request for the withdrawal, each of whose approvers may still approve withdrawals. */
  predicate LiveQuorum(db: Db, payoutId: nat, id: nat) {
    && id < |db.requests| && payoutId in db.payouts
    && var r := db.requests[id];
    && r.action == Withdrawal && r.entityId == ToDecimal(payoutId) && r.status == Approved
    && (forall i :: 0 <= i < |r.approvals| ==>
          HasActionPermission(Resolve(db.directory, r.approvals[i].userId), Withdrawal))
    && (db.payouts[payoutId].amount >= 50_000 * UNIT ==>
          exists i :: 0 <= i < |r.approvals| && FinanceOrCompliance(Resolve(db.directory, r.approvals[i].userId)))
  }

  lemma LiveQuorumQualifies(db: Db, payoutId: nat, id: nat)
    requires payoutId in db.payouts && db.payouts[payoutId].amount >= 10_000 * UNIT && id < |db.requests|
    ensures LiveQuorum(db, payoutId, id) <==> QualifiedCandidate(db, payoutId, id)
  {
    var r := db.requests[id];
    forall i | 0 <= i < |r.approvals|
      ensures var role := Resolve(db.directory, r.approvals[i].userId);
              HasActionPermission(role, Withdrawal)
              <==> role != NoRole && TierEligible(role, TierOf(db.payouts[payoutId].amount).requiredRoles)
    {
      QuorumRolesAreWithdrawalApprovers(Resolve(db.directory, r.approvals[i].userId), db.payouts[payoutId].amount);
    }
  }

  ghost predicate MayPay(db: Db, payoutId: nat) {
    && payoutId in db.payouts && db.payouts[payoutId].status == PayoutPending
    && (db.payouts[payoutId].amount >= 10_000 * UNIT ==> exists id :: LiveQuorum(db, payoutId, id))
  }

  /** The withdrawal, and no other, is APPROVED; nothing else moved but the request that paid, if one had to. */
  ghost predicate Paid(db: Db, db': Db, payoutId: nat) {
    && payoutId in db.payouts && db'.directory == db.directory
    && db'.payouts == db.payouts[payoutId := Payout(db.payouts[payoutId].amount, PayoutApproved)]
    && if db.payouts[payoutId].amount < 10_000 * UNIT then db'.requests == db.requests
       else exists id: nat :: && LiveQuorum(db, payoutId, id)
                              && (forall j :: 0 <= j < id ==> !LiveQuorum(db, payoutId, j))
                              && db'.requests == db.requests[id := db.requests[id].(status := Executed)]
  }

  lemma LargeExactly(db: Db, payoutId: nat)
    requires RequestsOk(db) && payoutId in db.payouts && db.payouts[payoutId].status == PayoutPending
    requires db.payouts[payoutId].amount >= 10_000 * UNIT
    ensures var r := CommitApprovePayout(db, payoutId);
            && (r.Ok? <==> exists id :: LiveQuorum(db, payoutId, id)) && (r.Ok? ==> Paid(db, r.value, payoutId))
            && (r.Err? ==> r.error == QuorumRequired)
  {
    FirstIsLowestQualified(db, payoutId);
    ApprovalsNeeded(Withdrawal, db.payouts[payoutId].amount);
    forall id | 0 <= id < |db.requests|
      ensures LiveQuorum(db, payoutId, id) <==> QualifiedCandidate(db, payoutId, id)
    {
      LiveQuorumQualifies(db, payoutId, id);
    }
    var chosen := FirstEvidence(db, payoutId, db.payouts[payoutId].amount, 0);
    if chosen.Some? {
      assert LiveQuorum(db, payoutId, chosen.value);
    }
  }

  /**
   A withdrawal is approved exactly when it is PENDING and, from 10,000 up, a live quorum stands
   for it; then it becomes APPROVED, the lowest such quorum is spent, and nothing else changes.
   */
  lemma PayExactly(db: Db, payoutId: nat)
    requires RequestsOk(db)
    ensures var r := CommitApprovePayout(db, payoutId);
            (r.Ok? <==> MayPay(db, payoutId)) && (r.Ok? ==> Paid(db, r.value, payoutId))
  {
    if payoutId in db.payouts && db.payouts[payoutId].status == PayoutPending {
      if db.payouts[payoutId].amount >= 10_000 * UNIT {
        LargeExactly(db, payoutId);
      } else {
        ApprovalsNeeded(Withdrawal, db.payouts[payoutId].amount);
      }
    }
  }
}
