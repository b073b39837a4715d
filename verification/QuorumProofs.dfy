/** Whole-run guarantees of the quorum protocol and of the evidence `approveWithdrawal` consumes. */
module QuorumProofs {
  import opened Common
  import opened DecimalText
  import opened AdminRoles
  import opened Approvals

  // ---------------------------------------------------------------- the invariant

  predicate DistinctApprovers(approvals: seq<Stamp>) {
    forall i, j :: 0 <= i < j < |approvals| ==> approvals[i].userId != approvals[j].userId
  }

  /** A role that may approve the action at all, and that the tier of the amount admits. */
  predicate MayStamp(role: EffectiveRole, action: ActionType, amount: int) {
    && HasActionPermission(role, action)
    && (amount >= 10_000 * UNIT ==>
          || role == LegacyAdmin || role == Holds(SuperAdmin)
          || role == Holds(FinanceAdmin) || role == Holds(ComplianceAdmin))
  }

  /** A quorum in the making or made: distinct stamps, none the requester's, Finance/Compliance first from 50,000. */
  predicate QuorumOk(r: Request) {
    && DistinctApprovers(r.approvals)
    && (forall i :: 0 <= i < |r.approvals| ==> r.approvals[i].userId != r.requestedBy && !r.approvals[i].auto)
    && (forall i :: 0 <= i < |r.approvals| ==> MayStamp(r.approvals[i].role, r.action, r.amount))
    && (r.amount >= 50_000 * UNIT && r.approvals != [] ==> FinanceOrCompliance(r.approvals[0].role))
    && (if r.status == Approved || r.status == Executed then |r.approvals| == r.requiredApprovals
        else |r.approvals| < r.requiredApprovals)
  }

  predicate RequestOk(r: Request) {
    && r.requiredApprovals == RequiredApprovals(r.action, r.amount)
    && (r.status == AutoApproved <==> r.requiredApprovals == 0)
    && (r.status != AutoApproved ==> QuorumOk(r))
  }

  /** A withdrawal request parses to a stored withdrawal and carries its amount. */
  predicate BoundToPayout(db: Db, r: Request) {
    r.action == Withdrawal ==>
      var id := ParseInt(r.entityId);
      id.Some? && id.value in db.payouts && db.payouts[id.value].amount == r.amount
  }

  predicate RequestsOk(db: Db) {
    forall i :: 0 <= i < |db.requests| ==> RequestOk(db.requests[i]) && BoundToPayout(db, db.requests[i])
  }

  predicate TicketOk(db: Db, ticket: Ticket) {
    match ticket
    case ToCreate(t) =>
      RequestOk(t.request) && BoundToPayout(db, t.request)
      && (t.request.status == Pending || t.request.status == AutoApproved)
    case ToApprove(t) =>
      && t.requestId < |db.requests|
      && var r := db.requests[t.requestId];
      && !HasApproved(t.seen, t.stamp.userId)
      && t.stamp.userId != r.requestedBy
      && !t.stamp.auto
      && MayStamp(t.stamp.role, r.action, r.amount)
      && r.status != AutoApproved
      && (r.amount >= 50_000 * UNIT && t.seen == [] ==> FinanceOrCompliance(t.stamp.role))
    case ToPay(t) => true
  }

  predicate Inv(s: System) {
    RequestsOk(s.db) && forall k :: 0 <= k < |s.tickets| ==> TicketOk(s.db, s.tickets[k])
  }

  // ---------------------------------------------------------------- how rows may evolve

  /** What may happen to one request over time: its terms are fixed, its stamps only grow, its end is final. */
  predicate Evolves(r: Request, r': Request) {
    && r'.action == r.action && r'.entityId == r.entityId && r'.amount == r.amount
    && r'.requestedBy == r.requestedBy && r'.requiredApprovals == r.requiredApprovals
    && r.approvals <= r'.approvals
    && (r.status == Rejected || r.status == AutoApproved || r.status == Executed ==> r' == r)
    && (r.status == Approved ==> r' == r || r' == r.(status := Executed))
    && (r'.status == AutoApproved ==> r.status == AutoApproved)
  }

  predicate DbEvolves(db: Db, db': Db) {
    && |db.requests| <= |db'.requests|
    && (forall i :: 0 <= i < |db.requests| ==> Evolves(db.requests[i], db'.requests[i]))
    && (forall id :: id in db.payouts ==> id in db'.payouts && db'.payouts[id].amount == db.payouts[id].amount)
  }

  lemma ApproveEvolves(db: Db, t: ApproveTicket)
    requires TicketOk(db, ToApprove(t))
    ensures DbEvolves(db, CommitApprove(db, t))
  {
  }

  lemma PayEvolves(db: Db, payoutId: nat)
    ensures var r := CommitApprovePayout(db, payoutId); r.Ok? ==> DbEvolves(db, r.value)
  {
  }

  lemma FinishEvolves(s: System, t: Ticket)
    requires TicketOk(s.db, t)
    ensures DbEvolves(s.db, FinishTicket(s, t).db)
  {
    match t
    case ToCreate(_) =>
    case ToApprove(approve) => ApproveEvolves(s.db, approve);
    case ToPay(pay) => PayEvolves(s.db, pay.payoutId);
  }

  lemma OthersEvolve(s: System, step: Step)
    requires !step.Finish?
    ensures DbEvolves(s.db, Next(s, step).db)
  {
  }

  lemma NextEvolves(s: System, step: Step)
    requires Inv(s)
    ensures DbEvolves(s.db, Next(s, step).db)
  {
    if step.Finish? {
      if step.ticket < |s.tickets| {
        FinishEvolves(s, s.tickets[step.ticket]);
      }
    } else {
      OthersEvolve(s, step);
    }
  }

  lemma EvolvesTransitive(a: Db, b: Db, c: Db)
    requires DbEvolves(a, b) && DbEvolves(b, c)
    ensures DbEvolves(a, c)
  {
    forall i | 0 <= i < |a.requests|
      ensures Evolves(a.requests[i], c.requests[i])
    {
      assert Evolves(a.requests[i], b.requests[i]) && Evolves(b.requests[i], c.requests[i]);
    }
  }

  lemma TicketsSurvive(db: Db, db': Db, ticket: Ticket)
    requires TicketOk(db, ticket) && DbEvolves(db, db')
    ensures TicketOk(db', ticket)
  {
    if ticket.ToApprove? {
      assert Evolves(db.requests[ticket.approve.requestId], db'.requests[ticket.approve.requestId]);
    }
  }

  // ---------------------------------------------------------------- each commit keeps the invariant

  lemma ApproveKeepsRequests(db: Db, t: ApproveTicket)
    requires RequestsOk(db) && TicketOk(db, ToApprove(t))
    ensures RequestsOk(CommitApprove(db, t))
  {
    if ApproveLands(db, t) {
      var r := db.requests[t.requestId];
      var r' := CommitApprove(db, t).requests[t.requestId];
      assert r'.approvals == r.approvals + [t.stamp];
      assert RequestOk(r);
      assert QuorumOk(r');
    }
  }

  lemma PayKeepsRequests(db: Db, payoutId: nat)
    requires RequestsOk(db)
    ensures CommitApprovePayout(db, payoutId).Ok? ==> RequestsOk(CommitApprovePayout(db, payoutId).value)
  {
  }

  lemma ReadCreateOk(db: Db, action: ActionType, entityId: string, clientAmount: int, userId: int, at: int)
    ensures var r := ReadCreate(db, action, entityId, clientAmount, userId, at);
            r.Ok? ==> TicketOk(db, ToCreate(r.value))
  {
  }

  lemma ReadApproveOk(db: Db, requestId: nat, userId: int, at: int)
    requires RequestsOk(db)
    ensures var r := ReadApprove(db, requestId, userId, at); r.Ok? ==> TicketOk(db, ToApprove(r.value))
  {
    if requestId < |db.requests| {
      assert RequestOk(db.requests[requestId]);
      WhoTheTierAdmits(Resolve(db.directory, userId), db.requests[requestId].amount);
    }
  }

  lemma NewTicketOk(s: System, step: Step)
    requires Inv(s)
    ensures var s' := Next(s, step);
            |s'.tickets| > |s.tickets| ==>
              s'.db == s.db && |s'.tickets| == |s.tickets| + 1 && TicketOk(s.db, s'.tickets[|s.tickets|])
  {
    match step
    case StartCreate(action, entityId, clientAmount, requester, at) =>
      ReadCreateOk(s.db, action, entityId, clientAmount, requester, at);
    case StartApprove(requestId, approver, at) => ReadApproveOk(s.db, requestId, approver, at);
    case _ =>
  }

  lemma FinishKeepsRequests(s: System, t: Ticket)
    requires RequestsOk(s.db) && TicketOk(s.db, t)
    ensures RequestsOk(FinishTicket(s, t).db)
  {
    match t
    case ToCreate(_) =>
    case ToApprove(approve) => ApproveKeepsRequests(s.db, approve);
    case ToPay(pay) => PayKeepsRequests(s.db, pay.payoutId);
  }

  lemma OthersKeepRequests(s: System, step: Step)
    requires RequestsOk(s.db) && !step.Finish?
    ensures RequestsOk(Next(s, step).db)
  {
  }

  lemma NextKeepsRequests(s: System, step: Step)
    requires Inv(s)
    ensures RequestsOk(Next(s, step).db)
  {
    if step.Finish? {
      if step.ticket < |s.tickets| {
        FinishKeepsRequests(s, s.tickets[step.ticket]);
      }
    } else {
      OthersKeepRequests(s, step);
    }
  }

  lemma {:induction false} NextKeepsInv(s: System, step: Step)
    requires Inv(s)
    ensures Inv(Next(s, step))
  {
    var s' := Next(s, step);
    NextEvolves(s, step);
    NewTicketOk(s, step);
    NextKeepsRequests(s, step);
    forall k | 0 <= k < |s'.tickets|
      ensures TicketOk(s'.db, s'.tickets[k])
    {
      if k < |s.tickets| {
        TicketsSurvive(s.db, s'.db, s.tickets[k]);
      }
    }
  }

  // ---------------------------------------------------------------- theorems over whole runs

  lemma {:induction false} RunKeepsInv(s: System, steps: seq<Step>)
    requires Inv(s)
    ensures Inv(Run(s, steps))
  {
    if steps != [] {
      RunKeepsInv(s, steps[..|steps| - 1]);
      NextKeepsInv(Run(s, steps[..|steps| - 1]), steps[|steps| - 1]);
    }
  }

  /** In every reachable state every request is bound to its withdrawal and obeys the quorum rules of its tier. */
  lemma QuorumProtocol(directory: Directory, steps: seq<Step>)
    ensures RequestsOk(Run(Initial(directory), steps).db)
  {
    RunKeepsInv(Initial(directory), steps);
  }

  /** From any reachable state on: terms fixed, approvals append-only, terminal states final, amounts immutable. */
  lemma {:induction false} RunEvolves(s: System, steps: seq<Step>)
    requires Inv(s)
    ensures DbEvolves(s.db, Run(s, steps).db)
  {
    if steps != [] {
      var mid := Run(s, steps[..|steps| - 1]);
      RunEvolves(s, steps[..|steps| - 1]);
      RunKeepsInv(s, steps[..|steps| - 1]);
      NextEvolves(mid, steps[|steps| - 1]);
      EvolvesTransitive(s.db, mid.db, Run(s, steps).db);
    }
  }

  /** An approval whose compare-and-swap landed keeps its place in the list through every later run. */
  lemma {:induction false} ApprovalNeverLost(directory: Directory, before: seq<Step>, k: nat, after: seq<Step>)
    requires var s := Run(Initial(directory), before);
             k < |s.tickets| && s.tickets[k].ToApprove? && ApproveLands(s.db, s.tickets[k].approve)
    ensures var s := Run(Initial(directory), before);
            var t := s.tickets[k].approve;
            var later := Run(Next(s, Finish(k)), after).db.requests;
            && t.requestId < |later|
            && t.seen + [t.stamp] <= later[t.requestId].approvals
  {
    var s := Run(Initial(directory), before);
    var t := s.tickets[k].approve;
    RunKeepsInv(Initial(directory), before);
    NextKeepsInv(s, Finish(k));
    RunEvolves(Next(s, Finish(k)), after);
    var done := Next(s, Finish(k)).db.requests;
    assert Evolves(done[t.requestId], Run(Next(s, Finish(k)), after).db.requests[t.requestId]);
  }

  // ---------------------------------------------------------------- the evidence checks

  lemma {:induction false} DistinctCount(approvals: seq<Stamp>, r: Request)
    requires r.approvals == approvals && DistinctApprovers(approvals)
    ensures |Approvers(r)| == |approvals|
    decreases |approvals|
  {
    if approvals != [] {
      var n := |approvals| - 1;
      var shorter := r.(approvals := approvals[..n]);
      DistinctCount(approvals[..n], shorter);
      assert Approvers(r) == Approvers(shorter) + {approvals[n].userId};
      assert approvals[n].userId !in Approvers(shorter);
    }
  }

  /** Amount, tier, count and distinctness never reject: among candidates only the approvers' live roles decide. */
  lemma EvidenceIsQualification(db: Db, payoutId: nat, i: nat)
    requires RequestsOk(db) && payoutId in db.payouts && i < |db.requests|
    requires CandidateFor(db.requests[i], payoutId)
    ensures db.requests[i].amount == db.payouts[payoutId].amount
    ensures EvidencePasses(db.directory, db.requests[i], db.payouts[payoutId].amount)
       <==> ApproversQualify(db.directory, db.requests[i], db.payouts[payoutId].amount)
  {
    var r := db.requests[i];
    assert RequestOk(r) && BoundToPayout(db, r);
    ParsePrinted(payoutId);
    DistinctCount(r.approvals, r);
  }

  predicate QualifiedCandidate(db: Db, payoutId: nat, i: nat)
    requires payoutId in db.payouts && i < |db.requests|
  {
    CandidateFor(db.requests[i], payoutId)
    && ApproversQualify(db.directory, db.requests[i], db.payouts[payoutId].amount)
  }

  lemma EvidenceIffQualified(db: Db, payoutId: nat, i: nat)
    requires RequestsOk(db) && payoutId in db.payouts && i < |db.requests|
    ensures Evidence(db, payoutId, db.payouts[payoutId].amount, i) <==> QualifiedCandidate(db, payoutId, i)
  {
    if CandidateFor(db.requests[i], payoutId) {
      EvidenceIsQualification(db, payoutId, i);
    }
  }

  /** Request `id` is the lowest candidate whose approvers all still qualify. */
  predicate LowestQualified(db: Db, payoutId: nat, id: nat)
    requires payoutId in db.payouts
  {
    && id < |db.requests| && QualifiedCandidate(db, payoutId, id)
    && (forall j :: 0 <= j < id ==> !QualifiedCandidate(db, payoutId, j))
  }

  /** What the search finds, in terms of the approvers' live roles alone. */
  lemma FirstIsLowestQualified(db: Db, payoutId: nat)
    requires RequestsOk(db) && payoutId in db.payouts
    ensures var chosen := FirstEvidence(db, payoutId, db.payouts[payoutId].amount, 0);
            if chosen.Some? then LowestQualified(db, payoutId, chosen.value)
            else forall i :: 0 <= i < |db.requests| ==> !QualifiedCandidate(db, payoutId, i)
  {
    forall i | 0 <= i < |db.requests|
      ensures Evidence(db, payoutId, db.payouts[payoutId].amount, i) <==> QualifiedCandidate(db, payoutId, i)
    {
      EvidenceIffQualified(db, payoutId, i);
    }
  }

  /** The search takes the lowest candidate whose approvers still qualify, and fails exactly when there is none. */
  lemma {:induction false} SearchFindsLowestQualified(directory: Directory, steps: seq<Step>, payoutId: nat)
    requires var db := Run(Initial(directory), steps).db;
             payoutId in db.payouts && db.payouts[payoutId].status == PayoutPending
             && db.payouts[payoutId].amount >= 10_000 * UNIT
    ensures var db := Run(Initial(directory), steps).db;
            var r := CommitApprovePayout(db, payoutId);
            && (r == Err(QuorumRequired) <==>
                  forall i :: 0 <= i < |db.requests| ==> !QualifiedCandidate(db, payoutId, i))
            && (r.Ok? ==> exists id :: LowestQualified(db, payoutId, id)
                                       && r.value == FlipPayout(Consume(db, id), payoutId))
  {
    var db := Run(Initial(directory), steps).db;
    QuorumProtocol(directory, steps);
    FirstIsLowestQualified(db, payoutId);
    assert RequiredApprovals(Withdrawal, db.payouts[payoutId].amount) > 1;
  }

  // ---------------------------------------------------------------- end to end

  predicate Flips(s: System, s': System, payoutId: nat) {
    payoutId in s.db.payouts && s.db.payouts[payoutId].status == PayoutPending
    && payoutId in s'.db.payouts && s'.db.payouts[payoutId].status == PayoutApproved
  }

  /** Request `id`, and no other row, paid for the flip: same withdrawal, same amount, a full live quorum. */
  predicate PaidBy(db: Db, db': Db, payoutId: nat, id: nat) {
    && id < |db.requests| && payoutId in db.payouts
    && var r := db.requests[id];
    var amount := db.payouts[payoutId].amount;
    && r.status == Approved
    && db'.requests == db.requests[id := r.(status := Executed)]
    && db'.directory == db.directory
    && r.action == Withdrawal && ParseInt(r.entityId) == Some(payoutId) && r.amount == amount
    && |r.approvals| == (if amount >= 50_000 * UNIT then 3 else 2)
    && DistinctApprovers(r.approvals)
    && (forall i :: 0 <= i < |r.approvals| ==>
          && r.approvals[i].userId != r.requestedBy
          && HasActionPermission(Resolve(db.directory, r.approvals[i].userId), Withdrawal))
    && (amount >= 50_000 * UNIT ==> FinancePresent(db.directory, r.approvals))
  }

  /** A committed approval from 10,000 up was paid for by the request it executed. */
  lemma CommitIsPaid(db: Db, payoutId: nat) returns (id: nat)
    requires RequestsOk(db) && CommitApprovePayout(db, payoutId).Ok?
    requires db.payouts[payoutId].amount >= 10_000 * UNIT
    ensures PaidBy(db, CommitApprovePayout(db, payoutId).value, payoutId, id)
  {
    var amount := db.payouts[payoutId].amount;
    id := FirstEvidence(db, payoutId, amount, 0).value;
    var r := db.requests[id];
    EvidenceIsQualification(db, payoutId, id);
    ParsePrinted(payoutId);
    assert RequestOk(r);
    forall i | 0 <= i < |r.approvals|
      ensures HasActionPermission(Resolve(db.directory, r.approvals[i].userId), Withdrawal)
    {
      QuorumRolesAreWithdrawalApprovers(Resolve(db.directory, r.approvals[i].userId), amount);
    }
  }

  /** Only the transaction of `approveWithdrawal` flips a withdrawal. */
  lemma FlipIsCommit(s: System, step: Step, payoutId: nat)
    requires Flips(s, Next(s, step), payoutId)
    ensures CommitApprovePayout(s.db, payoutId) == Ok(Next(s, step).db)
  {
  }

  /** In every run, a withdrawal of 10,000 or more is approved only by spending exactly one live quorum for it. */
  lemma {:induction false} FlipSpendsOneQuorum(directory: Directory, steps: seq<Step>, step: Step, payoutId: nat)
    returns (id: nat)
    requires var s := Run(Initial(directory), steps);
             Flips(s, Next(s, step), payoutId) && s.db.payouts[payoutId].amount >= 10_000 * UNIT
    ensures var s := Run(Initial(directory), steps);
            PaidBy(s.db, Next(s, step).db, payoutId, id)
  {
    QuorumProtocol(directory, steps);
    FlipIsCommit(Run(Initial(directory), steps), step, payoutId);
    id := CommitIsPaid(Run(Initial(directory), steps).db, payoutId);
  }

  // ---------------------------------------------------------------- counting

  predicate CountsFor(r: Request, payoutId: nat) {
    r.action == Withdrawal && r.entityId == ToDecimal(payoutId) && r.status == Executed
  }

  function ExecutedFor(requests: seq<Request>, payoutId: nat): nat {
    if requests == [] then 0
    else
      ExecutedFor(requests[..|requests| - 1], payoutId)
      + if CountsFor(requests[|requests| - 1], payoutId) then 1 else 0
  }

  /** How often a run flipped the withdrawal while its amount called for a quorum of two or more. */
  function QuorumFlips(s: System, steps: seq<Step>, payoutId: nat): nat {
    if steps == [] then 0
    else
      var mid := Run(s, steps[..|steps| - 1]);
      QuorumFlips(s, steps[..|steps| - 1], payoutId)
      + if Flips(mid, Next(mid, steps[|steps| - 1]), payoutId)
           && mid.db.payouts[payoutId].amount >= 10_000 * UNIT then 1 else 0
  }

  lemma {:induction false} ExecutedForUpdate(requests: seq<Request>, id: nat, r: Request, payoutId: nat)
    requires id < |requests|
    ensures ExecutedFor(requests[id := r], payoutId)
         == ExecutedFor(requests, payoutId) - (if CountsFor(requests[id], payoutId) then 1 else 0)
            + (if CountsFor(r, payoutId) then 1 else 0)
  {
    var n := |requests| - 1;
    if id == n {
      assert requests[id := r][..n] == requests[..n];
    } else {
      assert requests[id := r][..n] == requests[..n][id := r];
      ExecutedForUpdate(requests[..n], id, r, payoutId);
    }
  }

  /** The executed requests filed under the withdrawal grew by its quorum flip, if the step made one. */
  predicate CountsStep(s: System, s': System, payoutId: nat) {
    ExecutedFor(s'.db.requests, payoutId)
    == ExecutedFor(s.db.requests, payoutId)
       + if Flips(s, s', payoutId) && s.db.payouts[payoutId].amount >= 10_000 * UNIT then 1 else 0
  }

  lemma RejectCounts(s: System, id: nat, rejecter: int, payoutId: nat)
    ensures CountsStep(s, Apply(s, RejectRequest(s.db, id, rejecter)), payoutId)
  {
    if id < |s.db.requests| {
      ExecutedForUpdate(s.db.requests, id, s.db.requests[id].(status := Rejected), payoutId);
    }
  }

  lemma FinishCounts(s: System, t: Ticket, payoutId: nat)
    requires TicketOk(s.db, t)
    ensures CountsStep(s, FinishTicket(s, t), payoutId)
  {
    match t
    case ToCreate(create) => assert CommitCreate(s.db, create).requests[..|s.db.requests|] == s.db.requests;
    case ToApprove(approve) => ApproveCounts(s.db, approve, payoutId);
    case ToPay(pay) => PayCounts(s, pay.payoutId, payoutId);
  }

  /** Reads, role changes and worker moves leave requests alone and approve nothing. */
  lemma OthersCount(s: System, step: Step, payoutId: nat)
    requires !step.Reject? && !step.Finish?
    ensures Next(s, step).db.requests == s.db.requests && !Flips(s, Next(s, step), payoutId)
  {
  }

  lemma NextCounts(s: System, step: Step, payoutId: nat)
    requires Inv(s)
    ensures CountsStep(s, Next(s, step), payoutId)
  {
    if step.Reject? {
      RejectCounts(s, step.rejectedId, step.rejecter, payoutId);
    } else if step.Finish? {
      if step.ticket < |s.tickets| {
        FinishCounts(s, s.tickets[step.ticket], payoutId);
      }
    } else {
      OthersCount(s, step, payoutId);
    }
  }

  lemma ApproveCounts(db: Db, t: ApproveTicket, payoutId: nat)
    ensures ExecutedFor(CommitApprove(db, t).requests, payoutId) == ExecutedFor(db.requests, payoutId)
  {
    if ApproveLands(db, t) {
      ExecutedForUpdate(db.requests, t.requestId, CommitApprove(db, t).requests[t.requestId], payoutId);
    }
  }

  lemma PayCounts(s: System, paid: nat, payoutId: nat)
    ensures var s' := Apply(s, CommitApprovePayout(s.db, paid));
            ExecutedFor(s'.db.requests, payoutId)
            == ExecutedFor(s.db.requests, payoutId)
               + (if Flips(s, s', payoutId) && s.db.payouts[payoutId].amount >= 10_000 * UNIT then 1 else 0)
  {
    var r := CommitApprovePayout(s.db, paid);
    if r.Ok? && RequiredApprovals(Withdrawal, s.db.payouts[paid].amount) > 1 {
      var id := FirstEvidence(s.db, paid, s.db.payouts[paid].amount, 0).value;
      ExecutedForUpdate(s.db.requests, id, s.db.requests[id].(status := Executed), payoutId);
      if paid != payoutId && ToDecimal(paid) == ToDecimal(payoutId) {
        PrintedInjective(paid, payoutId);
      }
    }
  }

  /** Over every run, the EXECUTED requests filed under a withdrawal number exactly its quorum flips. */
  lemma {:induction false} ExecutedMatchesFlips(directory: Directory, steps: seq<Step>, payoutId: nat)
    ensures ExecutedFor(Run(Initial(directory), steps).db.requests, payoutId)
         == QuorumFlips(Initial(directory), steps, payoutId)
  {
    if steps != [] {
      ExecutedMatchesFlips(directory, steps[..|steps| - 1], payoutId);
      RunKeepsInv(Initial(directory), steps[..|steps| - 1]);
      NextCounts(Run(Initial(directory), steps[..|steps| - 1]), steps[|steps| - 1], payoutId);
    }
  }
}
