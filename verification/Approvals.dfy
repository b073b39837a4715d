/**
 The multi-approver quorum and its consumption by withdrawal approval, as a transition
 system. `Db` holds the tables. A handler that reads before it writes is split into a
 read, which leaves a ticket holding what it saw, and a commit, which may run any number
 of steps later against whatever the tables hold then.
 */
module Approvals {
  import opened Common
  import opened DecimalText
  import opened AdminRoles

  datatype Stamp = Stamp(userId: int, role: EffectiveRole, auto: bool, at: int)

  datatype RequestStatus = Pending | Approved | Rejected | AutoApproved | Executed

  datatype Request = Request(
    action: ActionType, entityId: string, amount: int, requestedBy: int,
    requiredApprovals: nat, approvals: seq<Stamp>, status: RequestStatus)

  datatype PayoutStatus = PayoutPending | PayoutApproved | PayoutOther(name: string)

  datatype Payout = Payout(amount: int, status: PayoutStatus)

  /** Requests are numbered by position, in creation order; payouts by their row id. */
  datatype Db = Db(directory: Directory, payouts: map<int, Payout>, requests: seq<Request>)

  datatype Error =
    | InvalidEntity | PayoutMissing | PayoutNotPending | AmountMismatch
    | NotFound | NotPending | ForbiddenRole | ForbiddenType | Duplicate | SelfApproval
    | ForbiddenFinance | Conflict | QuorumRequired

  datatype Result<+T> = Ok(value: T) | Err(error: Error)

  // ---------------------------------------------------------------- creating a request

  datatype CreateTicket = CreateTicket(request: Request)

  /** The amount a request is sized by: a withdrawal's own stored amount, never the client's. */
  function AuthoritativeAmount(db: Db, action: ActionType, entityId: string, clientAmount: int): Result<int> {
    if action != Withdrawal then Ok(clientAmount)
    else
      var id := ParseInt(entityId);
      if id == None || id == Some(0) then Err(InvalidEntity)
      else if id.value !in db.payouts then Err(PayoutMissing)
      else if db.payouts[id.value].status != PayoutPending then Err(PayoutNotPending)
      else if clientAmount > 0 && clientAmount != db.payouts[id.value].amount then Err(AmountMismatch)
      else Ok(db.payouts[id.value].amount)
  }

  function ReadCreate(db: Db, action: ActionType, entityId: string, clientAmount: int, userId: int, at: int)
    : Result<CreateTicket>
  {
    var role := Resolve(db.directory, userId);
    if role == NoRole then Err(ForbiddenRole)
    else if !HasActionPermission(role, action) then Err(ForbiddenType)
    else
      var amount := AuthoritativeAmount(db, action, entityId, clientAmount);
      if amount.Err? then Err(amount.error)
      else
        var required := RequiredApprovals(action, amount.value);
        Ok(CreateTicket(Request(action, entityId, amount.value, userId, required,
                                if required == 0 then [Stamp(userId, role, true, at)] else [],
                                if required == 0 then AutoApproved else Pending)))
  }

  function CommitCreate(db: Db, ticket: CreateTicket): Db {
    db.(requests := db.requests + [ticket.request])
  }

  // ---------------------------------------------------------------- approving a request

  /** What an approver read: the approvals it saw and the stamp it decided to append. */
  datatype ApproveTicket = ApproveTicket(requestId: nat, seen: seq<Stamp>, stamp: Stamp)

  predicate HasApproved(approvals: seq<Stamp>, userId: int) {
    exists i :: 0 <= i < |approvals| && approvals[i].userId == userId
  }

  predicate FinancePresent(directory: Directory, approvals: seq<Stamp>) {
    exists i :: 0 <= i < |approvals| && FinanceOrCompliance(Resolve(directory, approvals[i].userId))
  }

  function ReadApprove(db: Db, requestId: nat, userId: int, at: int): Result<ApproveTicket> {
    if requestId >= |db.requests| then Err(NotFound)
    else
      var request := db.requests[requestId];
      var role := Resolve(db.directory, userId);
      if request.status != Pending then Err(NotPending)
      else if role == NoRole then Err(ForbiddenRole)
      else if !HasActionPermission(role, request.action) then Err(ForbiddenType)
      else if HasApproved(request.approvals, userId) then Err(Duplicate)
      else if request.requestedBy == userId then Err(SelfApproval)
      else if !TierEligible(role, TierOf(request.amount).requiredRoles) then Err(ForbiddenRole)
      else if request.amount >= 50_000 * UNIT && !FinancePresent(db.directory, request.approvals)
              && !FinanceOrCompliance(role) then Err(ForbiddenFinance)
      else Ok(ApproveTicket(requestId, request.approvals, Stamp(userId, role, false, at)))
  }

  /** The compare-and-swap of `approveRequest`: it lands only on the approvals it was decided on. */
  predicate ApproveLands(db: Db, ticket: ApproveTicket) {
    ticket.requestId < |db.requests|
    && db.requests[ticket.requestId].status == Pending
    && db.requests[ticket.requestId].approvals == ticket.seen
  }

  function CommitApprove(db: Db, ticket: ApproveTicket): Db {
    if !ApproveLands(db, ticket) then db
    else
      var request := db.requests[ticket.requestId];
      var approvals := ticket.seen + [ticket.stamp];
      var status := if |approvals| >= request.requiredApprovals then Approved else Pending;
      db.(requests := db.requests[ticket.requestId := request.(approvals := approvals, status := status)])
  }

  // ---------------------------------------------------------------- rejecting a request

  function RejectRequest(db: Db, requestId: nat, userId: int): Result<Db> {
    if requestId >= |db.requests| then Err(NotFound)
    else
      var role := Resolve(db.directory, userId);
      if role == NoRole then Err(ForbiddenRole)
      else if !HasActionPermission(role, db.requests[requestId].action) then Err(ForbiddenType)
      else if db.requests[requestId].status != Pending then Err(NotPending)
      else Ok(db.(requests := db.requests[requestId := db.requests[requestId].(status := Rejected)]))
  }

  // ---------------------------------------------------------------- approving a withdrawal

  /** An APPROVED request filed under this withdrawal's printed id. */
  predicate CandidateFor(request: Request, payoutId: nat) {
    request.action == Withdrawal && request.entityId == ToDecimal(payoutId) && request.status == Approved
  }

  /** Every recorded approver still holds an eligible role, Finance or Compliance among them from 50,000. */
  predicate ApproversQualify(directory: Directory, request: Request, amount: int) {
    && (forall i :: 0 <= i < |request.approvals| ==>
          Resolve(directory, request.approvals[i].userId) != NoRole
          && TierEligible(Resolve(directory, request.approvals[i].userId), TierOf(amount).requiredRoles))
    && (amount >= 50_000 * UNIT ==> FinancePresent(directory, request.approvals))
  }

  function Approvers(request: Request): set<int> {
    set i | 0 <= i < |request.approvals| :: request.approvals[i].userId
  }

  /** All five evidence checks of `approveWithdrawal`, as the code makes them. */
  predicate EvidencePasses(directory: Directory, request: Request, amount: int) {
    && request.amount == amount
    && request.requiredApprovals == RequiredApprovals(Withdrawal, amount)
    && |request.approvals| >= RequiredApprovals(Withdrawal, amount)
    && |Approvers(request)| >= RequiredApprovals(Withdrawal, amount)
    && ApproversQualify(directory, request, amount)
  }

  predicate Evidence(db: Db, payoutId: nat, amount: int, id: nat)
    requires id < |db.requests|
  {
    CandidateFor(db.requests[id], payoutId) && EvidencePasses(db.directory, db.requests[id], amount)
  }

  /** The lowest request at or after `from` that carries passing evidence for the withdrawal. */
  function FirstEvidence(db: Db, payoutId: nat, amount: int, from: nat): (found: Option<nat>)
    requires from <= |db.requests|
    ensures found.Some? ==> from <= found.value < |db.requests| && Evidence(db, payoutId, amount, found.value)
    ensures forall j :: from <= j < (if found.Some? then found.value else |db.requests|) ==>
              !Evidence(db, payoutId, amount, j)
    decreases |db.requests| - from
  {
    if from == |db.requests| then None
    else if Evidence(db, payoutId, amount, from) then Some(from)
    else FirstEvidence(db, payoutId, amount, from + 1)
  }

  datatype PayoutTicket = PayoutTicket(payoutId: nat, actor: int)

  function ReadApprovePayout(db: Db, payoutId: nat, actor: int): Result<PayoutTicket> {
    if payoutId == 0 then Err(InvalidEntity)
    else if payoutId !in db.payouts then Err(PayoutMissing)
    else if db.payouts[payoutId].status != PayoutPending then Err(PayoutNotPending)
    else if !HasActionPermission(Resolve(db.directory, actor), Withdrawal) then Err(ForbiddenType)
    else Ok(PayoutTicket(payoutId, actor))
  }

  function FlipPayout(db: Db, payoutId: nat): Db
    requires payoutId in db.payouts
  {
    db.(payouts := db.payouts[payoutId := db.payouts[payoutId].(status := PayoutApproved)])
  }

  function Consume(db: Db, id: nat): Db
    requires id < |db.requests|
  {
    db.(requests := db.requests[id := db.requests[id].(status := Executed)])
  }

  /** The transaction of `approveWithdrawal`: below two approvals no request is consumed, above exactly one is. */
  function CommitApprovePayout(db: Db, payoutId: nat): Result<Db> {
    if payoutId !in db.payouts then Err(PayoutMissing)
    else if db.payouts[payoutId].status != PayoutPending then Err(PayoutNotPending)
    else
      var amount := db.payouts[payoutId].amount;
      if RequiredApprovals(Withdrawal, amount) <= 1 then Ok(FlipPayout(db, payoutId))
      else
        var chosen := FirstEvidence(db, payoutId, amount, 0);
        if chosen.None? then Err(QuorumRequired)
        else Ok(FlipPayout(Consume(db, chosen.value), payoutId))
  }

  // ---------------------------------------------------------------- runs

  datatype Ticket =
    | ToCreate(create: CreateTicket)
    | ToApprove(approve: ApproveTicket)
    | ToPay(pay: PayoutTicket)

  datatype System = System(db: Db, tickets: seq<Ticket>)

  datatype Step =
    | ChangeDirectory(directory: Directory)                  // role assignment, bans, demotions: anything
    | NewPayout(newId: nat, newAmount: int)
    | MovePayout(movedId: nat, status: PayoutStatus)         // workers and review; never into APPROVED
    | StartCreate(action: ActionType, entityId: string, clientAmount: int, requester: int, createdAt: int)
    | StartApprove(requestId: nat, approver: int, at: int)
    | StartPay(payoutId: nat, actor: int)
    | Finish(ticket: nat)
    | Reject(rejectedId: nat, rejecter: int)

  function Issue<T>(s: System, r: Result<T>, wrap: T -> Ticket): System {
    if r.Ok? then s.(tickets := s.tickets + [wrap(r.value)]) else s
  }

  function Apply(s: System, r: Result<Db>): System {
    if r.Ok? then s.(db := r.value) else s
  }

  function Next(s: System, step: Step): System {
    match step
    case ChangeDirectory(directory) => s.(db := s.db.(directory := directory))
    case NewPayout(id, amount) =>
      if id in s.db.payouts then s
      else s.(db := s.db.(payouts := s.db.payouts[id := Payout(amount, PayoutPending)]))
    case MovePayout(id, status) =>
      if id !in s.db.payouts || status == PayoutApproved then s
      else s.(db := s.db.(payouts := s.db.payouts[id := s.db.payouts[id].(status := status)]))
    case StartCreate(action, entityId, clientAmount, requester, at) =>
      Issue(s, ReadCreate(s.db, action, entityId, clientAmount, requester, at), t => ToCreate(t))
    case StartApprove(requestId, approver, at) =>
      Issue(s, ReadApprove(s.db, requestId, approver, at), t => ToApprove(t))
    case StartPay(payoutId, actor) =>
      Issue(s, ReadApprovePayout(s.db, payoutId, actor), t => ToPay(t))
    case Reject(requestId, rejecter) => Apply(s, RejectRequest(s.db, requestId, rejecter))
    case Finish(k) => if k < |s.tickets| then FinishTicket(s, s.tickets[k]) else s
  }

  function FinishTicket(s: System, ticket: Ticket): System {
    match ticket
    case ToCreate(t) => s.(db := CommitCreate(s.db, t))
    case ToApprove(t) => s.(db := CommitApprove(s.db, t))
    case ToPay(t) => Apply(s, CommitApprovePayout(s.db, t.payoutId))
  }

  /** The state after a run of steps, in order. */
  function Run(s: System, steps: seq<Step>): System {
    if steps == [] then s else Next(Run(s, steps[..|steps| - 1]), steps[|steps| - 1])
  }

  /** An empty database over any directory of admins. */
  function Initial(directory: Directory): System {
    System(Db(directory, map[], []), [])
  }
}
