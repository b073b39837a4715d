/**
 The approval handlers as they run against the tables, one method per read or commit phase.
 A read hands its caller a ticket that is good for the tables it saw; since every commit only
 lets the tables evolve, the ticket stays good until its own commit (`TicketsSurvive`).
 */
module ApprovalDesk {
  import opened Common
  import opened DecimalText
  import opened AdminRoles
  import opened Approvals
  import opened QuorumProofs
  import opened ApprovalRules

  class Desk {
    var directory: Directory
    var payouts: map<int, Payout>
    var requests: seq<Request>

    /** Every request is bound to its withdrawal and obeys the quorum rules of its tier. */
    ghost predicate Valid()
      reads this
    {
      RequestsOk(View())
    }

    constructor (directory: Directory)
      ensures Valid() && View() == Initial(directory).db
    {
      this.directory := directory;
      payouts := map[];
      requests := [];
    }

    ghost function View(): Db
      reads this
    {
      Db(directory, payouts, requests)
    }

    /** `createApprovalRequest` up to the insert. */
    method BeginCreate(action: ActionType, entityId: string, clientAmount: int, userId: int, at: int)
      returns (r: Result<CreateTicket>)
      ensures r == ReadCreate(View(), action, entityId, clientAmount, userId, at)
      ensures r.Ok? ==> TicketOk(View(), ToCreate(r.value))
      ensures r.Ok? <==> MayCreate(View(), action, entityId, clientAmount, userId)
      ensures r.Ok? ==> r.value.request.amount == RequestAmount(View(), action, entityId, clientAmount)
    {
      CreateExactly(View(), action, entityId, clientAmount, userId, at);
      ReadCreateOk(View(), action, entityId, clientAmount, userId, at);
      var role := Resolve(directory, userId);
      if role == NoRole { return Err(ForbiddenRole); }
      if !HasActionPermission(role, action) { return Err(ForbiddenType); }
      var amount := clientAmount;
      if action == Withdrawal {
        var id := ParseInt(entityId);
        if id.None? || id.value == 0 { return Err(InvalidEntity); }
        if id.value !in payouts { return Err(PayoutMissing); }
        if payouts[id.value].status != PayoutPending { return Err(PayoutNotPending); }
        if clientAmount > 0 && clientAmount != payouts[id.value].amount { return Err(AmountMismatch); }
        amount := payouts[id.value].amount;
      }
      var required := RequiredApprovals(action, amount);
      var approvals, status := [], Pending;
      if required == 0 {
        approvals, status := [Stamp(userId, role, true, at)], AutoApproved;
      }
      r := Ok(CreateTicket(Request(action, entityId, amount, userId, required, approvals, status)));
    }

    method FinishCreate(ticket: CreateTicket) returns (id: nat)
      requires Valid() && TicketOk(View(), ToCreate(ticket))
      modifies this`requests
      ensures id == old(|requests|)
      ensures View() == old(CommitCreate(View(), ticket))
      ensures Valid() && DbEvolves(old(View()), View())
    {
      id := |requests|;
      requests := requests + [ticket.request];
    }

    /** `approvals.some(a => a.userId === userId)` */
    method AlreadyApproved(approvals: seq<Stamp>, userId: int) returns (found: bool)
      ensures found == HasApproved(approvals, userId)
    {
      found := false;
      for i := 0 to |approvals|
        invariant !found && forall j :: 0 <= j < i ==> approvals[j].userId != userId
      {
        if approvals[i].userId == userId { return true; }
      }
    }

    /** Re-derives prior participation from live roles, never from recorded role strings. */
    method FinanceParticipates(approvals: seq<Stamp>) returns (found: bool)
      ensures found == FinancePresent(directory, approvals)
    {
      found := false;
      for i := 0 to |approvals|
        invariant !found && forall j :: 0 <= j < i ==> !FinanceOrCompliance(Resolve(directory, approvals[j].userId))
      {
        if FinanceOrCompliance(Resolve(directory, approvals[i].userId)) { return true; }
      }
    }

    /** `approveRequest` up to its compare-and-swap. */
    method BeginApprove(requestId: nat, userId: int, at: int) returns (r: Result<ApproveTicket>)
      requires Valid()
      ensures r == ReadApprove(View(), requestId, userId, at)
      ensures r.Ok? ==> TicketOk(View(), ToApprove(r.value))
      ensures r.Ok? <==> MayApprove(View(), requestId, userId)
      ensures r.Ok? ==> r.value.stamp == Stamp(userId, Resolve(directory, userId), false, at)
    {
      ApproveExactly(View(), requestId, userId, at);
      ReadApproveOk(View(), requestId, userId, at);
      if requestId >= |requests| { return Err(NotFound); }
      var request := requests[requestId];
      if request.status != Pending { return Err(NotPending); }
      var role := Resolve(directory, userId);
      if role == NoRole { return Err(ForbiddenRole); }
      if !HasActionPermission(role, request.action) { return Err(ForbiddenType); }
      var duplicate := AlreadyApproved(request.approvals, userId);
      if duplicate { return Err(Duplicate); }
      if request.requestedBy == userId { return Err(SelfApproval); }
      if !TierEligible(role, TierOf(request.amount).requiredRoles) { return Err(ForbiddenRole); }
      if request.amount >= 50_000 * UNIT {
        var present := FinanceParticipates(request.approvals);
        if !present && !FinanceOrCompliance(role) { return Err(ForbiddenFinance); }
      }
      r := Ok(ApproveTicket(requestId, request.approvals, Stamp(userId, role, false, at)));
    }

    /** The guarded `updateMany`: zero rows claimed means another admin got there first. */
    method FinishApprove(ticket: ApproveTicket) returns (claimed: bool)
      requires Valid() && TicketOk(View(), ToApprove(ticket))
      modifies this`requests
      ensures claimed == old(ApproveLands(View(), ticket))
      ensures View() == old(CommitApprove(View(), ticket))
      ensures Valid() && DbEvolves(old(View()), View())
      ensures claimed ==>
                var r := requests[ticket.requestId];
                && r.approvals == old(requests[ticket.requestId].approvals) + [ticket.stamp]
                && (r.status == Approved <==> |r.approvals| == RequiredApprovals(r.action, r.amount))
    {
      ApproveKeepsRequests(View(), ticket);
      ApproveEvolves(View(), ticket);
      var id := ticket.requestId;
      claimed := id < |requests| && requests[id].status == Pending && requests[id].approvals == ticket.seen;
      if claimed {
        var approvals := ticket.seen + [ticket.stamp];
        var full := |approvals| >= requests[id].requiredApprovals;
        requests := requests[id := requests[id].(approvals := approvals, status := if full then Approved else Pending)];
      }
    }

    method RejectOne(requestId: nat, userId: int) returns (error: Option<Error>)
      requires Valid()
      modifies this`requests
      ensures error == if old(RejectRequest(View(), requestId, userId)).Ok? then None
                       else Some(old(RejectRequest(View(), requestId, userId)).error)
      ensures View() == if error.None? then old(RejectRequest(View(), requestId, userId)).value else old(View())
      ensures Valid() && DbEvolves(old(View()), View())
      ensures error.None? ==> requests[requestId].status == Rejected
      ensures error.None? <==> old(MayReject(View(), requestId, userId))
      ensures error.None? ==> requests == old(requests)[requestId := old(requests)[requestId].(status := Rejected)]
    {
      RejectExactly(View(), requestId, userId);
      if requestId >= |requests| { return Some(NotFound); }
      var role := Resolve(directory, userId);
      if role == NoRole { return Some(ForbiddenRole); }
      if !HasActionPermission(role, requests[requestId].action) { return Some(ForbiddenType); }
      if requests[requestId].status != Pending { return Some(NotPending); }
      requests := requests[requestId := requests[requestId].(status := Rejected)];
      error := None;
    }

    /** The body of the candidate loop: checks 1 to 5, in order, each able to skip the candidate. */
    method CheckEvidence(candidate: Request, amount: int) returns (passes: bool)
      ensures passes == EvidencePasses(directory, candidate, amount)
    {
      var required := RequiredApprovals(Withdrawal, amount);
      if candidate.amount != amount { return false; }
      if candidate.requiredApprovals != required { return false; }
      if |candidate.approvals| < required { return false; }
      var distinct := {};
      for i := 0 to |candidate.approvals|
        invariant distinct == set j | 0 <= j < i :: candidate.approvals[j].userId
      {
        distinct := distinct + {candidate.approvals[i].userId};
      }
      assert distinct == Approvers(candidate);
      if |distinct| < required { return false; }
      var finance := false;
      for i := 0 to |candidate.approvals|
        invariant forall j :: 0 <= j < i ==>
                    Resolve(directory, candidate.approvals[j].userId) != NoRole
                    && TierEligible(Resolve(directory, candidate.approvals[j].userId), TierOf(amount).requiredRoles)
        invariant finance == FinancePresent(directory, candidate.approvals[..i])
      {
        var role := Resolve(directory, candidate.approvals[i].userId);
        if role == NoRole || !TierEligible(role, TierOf(amount).requiredRoles) { return false; }
        assert candidate.approvals[..i + 1] == candidate.approvals[..i] + [candidate.approvals[i]];
        finance := finance || FinanceOrCompliance(role);
      }
      assert candidate.approvals[..|candidate.approvals|] == candidate.approvals;
      passes := amount >= 50_000 * UNIT ==> finance;
    }

    /** The candidate loop of `approveWithdrawal`, over requests in id order. */
    method FindEvidence(payoutId: nat, amount: int) returns (chosen: Option<nat>)
      ensures chosen == FirstEvidence(View(), payoutId, amount, 0)
    {
      chosen := None;
      for id := 0 to |requests|
        invariant chosen == None
        invariant FirstEvidence(View(), payoutId, amount, 0) == FirstEvidence(View(), payoutId, amount, id)
      {
        if CandidateFor(requests[id], payoutId) {
          var passes := CheckEvidence(requests[id], amount);
          if passes { return Some(id); }
        }
      }
    }

    /** `approveWithdrawal` before its transaction. */
    method BeginApprovePayout(payoutId: nat, actor: int) returns (r: Result<PayoutTicket>)
      ensures r == ReadApprovePayout(View(), payoutId, actor)
      ensures r.Ok? <==> payoutId != 0 && payoutId in payouts && payouts[payoutId].status == PayoutPending
                         && HasActionPermission(Resolve(directory, actor), Withdrawal)
    {
      WhoMayAct(Resolve(directory, actor), Withdrawal);
      if payoutId == 0 { return Err(InvalidEntity); }
      if payoutId !in payouts { return Err(PayoutMissing); }
      if payouts[payoutId].status != PayoutPending { return Err(PayoutNotPending); }
      if !HasActionPermission(Resolve(directory, actor), Withdrawal) { return Err(ForbiddenType); }
      r := Ok(PayoutTicket(payoutId, actor));
    }

    /** The transaction of `approveWithdrawal`: consume one request, then flip the withdrawal. */
    method PayRows(payoutId: nat) returns (error: Option<Error>)
      modifies this`requests, this`payouts
      ensures var r := old(CommitApprovePayout(View(), payoutId));
              if r.Ok? then error == None && View() == r.value else error == Some(r.error) && View() == old(View())
    {
      if payoutId !in payouts { return Some(PayoutMissing); }
      if payouts[payoutId].status != PayoutPending { return Some(PayoutNotPending); }
      var amount := payouts[payoutId].amount;
      if RequiredApprovals(Withdrawal, amount) > 1 {
        var chosen := FindEvidence(payoutId, amount);
        if chosen.None? { return Some(QuorumRequired); }
        requests := requests[chosen.value := requests[chosen.value].(status := Executed)];
      }
      payouts := payouts[payoutId := payouts[payoutId].(status := PayoutApproved)];
      error := None;
    }

    /** `approveWithdrawal` to its caller: when it succeeds, what it spends and what it leaves alone. */
    method FinishApprovePayout(payoutId: nat) returns (error: Option<Error>)
      requires Valid()
      modifies this`requests, this`payouts
      ensures var r := old(CommitApprovePayout(View(), payoutId));
              if r.Ok? then error == None && View() == r.value else error == Some(r.error) && View() == old(View())
      ensures Valid() && DbEvolves(old(View()), View())
      ensures error.None? && payouts[payoutId].amount >= 10_000 * UNIT ==>
                exists id :: PaidBy(old(View()), View(), payoutId, id)
      ensures error.None? <==> old(MayPay(View(), payoutId))
      ensures error.None? ==> Paid(old(View()), View(), payoutId)
      ensures error.None? ==>
                payouts == old(payouts)[payoutId := Payout(old(payouts)[payoutId].amount, PayoutApproved)]
    {
      PayExactly(View(), payoutId);
      PayKeepsRequests(View(), payoutId);
      PayEvolves(View(), payoutId);
      ghost var before := View();
      error := PayRows(payoutId);
      if error.None? && before.payouts[payoutId].amount >= 10_000 * UNIT {
        ghost var id := CommitIsPaid(before, payoutId);
      }
    }
  }
}
