/**
 Withdrawal rejection and manual review. Two coupled rows carry one payout: the
 Withdrawal "mirror" and the TransactionHistory "canonical", joined by a bridge column.
 Every autocommitted statement or transaction of a handler is one function here; what a
 handler read earlier travels in its ticket.
 */
module Refunds {
  import opened Common

  datatype MirrorStatus =
    Pending | Approved | Processing | Dispatching | NeedsReview | Rejected | Completed | Failed

  datatype Mirror = Mirror(userId: int, amount: int, createdAt: int, status: MirrorStatus, bridge: Option<int>)

  datatype CanonicalStatus = CanonPending | CanonCompleted | CanonFailed | CanonFrozen

  datatype Provider = Moolre | Mtn

  /** A WITHDRAWAL_FIAT row; `reference` is its unique txHash, `owner` its recorded payout provider. */
  datatype Canonical = Canonical(
    userId: int, amount: int, fee: int, createdAt: int,
    reference: Option<string>, status: CanonicalStatus, owner: Option<Provider>)

  /** An OUTBOUND provider event; a dispatch observation names the provider that accepted. */
  datatype Event = Event(reference: string, dispatchedBy: Option<Provider>)

  datatype Entity = OfWithdrawal(id: int) | OfTransaction(reference: string)

  datatype Reason =
    | AmountExceedsThreshold | OrphanAdoptionClaimLost | AmbiguousTransactionReference
    | MissingTransactionReference | MissingRecipientPhone | AuthorityHeadroomBelowThreshold
    | InsufficientPoolLiquidity | DisbursementDispatchFailed
    | DispatchIdentityUnknown | DispatchIdentityContradiction | PostDispatchBookkeepingFailed
    | PostDispatchOwnershipWriteFailed | DispatchedOwnershipNotDurable | PayoutOwnershipConflict
    | SettlementEvidenceRejected | ProviderStatusUnavailable | ProviderReferenceNotFound
    | SmartRouteDispatchIntentFailed
    | EscalatedToReconciliation
    | OtherReason(name: string)

  datatype Phase = NoPhase | PreDispatch | DispatchFailedProven | PostAccept

  const SAFE_PARKING: set<Reason> := {
    AmountExceedsThreshold, OrphanAdoptionClaimLost, AmbiguousTransactionReference,
    MissingTransactionReference, MissingRecipientPhone, AuthorityHeadroomBelowThreshold,
    InsufficientPoolLiquidity, DisbursementDispatchFailed
  }

  const UNKNOWABLE: set<Reason> := {
    DispatchIdentityUnknown, DispatchIdentityContradiction, PostDispatchBookkeepingFailed,
    PostDispatchOwnershipWriteFailed, DispatchedOwnershipNotDurable, PayoutOwnershipConflict,
    SettlementEvidenceRejected, ProviderStatusUnavailable, ProviderReferenceNotFound,
    SmartRouteDispatchIntentFailed
  }

  const SAFE_PHASES: set<Phase> := {PreDispatch, DispatchFailedProven}

  /** Open exceptions are unique per entity and reason. */
  datatype AnomalyKey = AnomalyKey(entity: Entity, reason: Reason)

  /** Money handed back: by a legacy mirror refund, or by reversing a canonical row. */
  datatype Refund =
    | LegacyRefund(mirror: int, amount: int)
    | Reversal(canonical: int, rejectedMirror: Option<int>, amount: int)

  datatype Db = Db(
    mirrors: map<int, Mirror>,
    canonicals: map<int, Canonical>,
    obligations: set<int>,              // mirrors with an ACTIVE obligation of their own
    anomalies: map<AnomalyKey, Phase>,  // OPEN reconciliation exceptions
    events: set<Event>,
    refunds: seq<Refund>)

  // ---------------------------------------------------------------- resolving the canonical row

  function Linked(db: Db): set<int> {
    set w | w in db.mirrors && db.mirrors[w].bridge.Some? :: db.mirrors[w].bridge.value
  }

  /** The legacy match: same user, same amount, created within five seconds. */
  function Matches(db: Db, mirror: Mirror): set<int> {
    set c | c in db.canonicals
      && db.canonicals[c].userId == mirror.userId && db.canonicals[c].amount == mirror.amount
      && mirror.createdAt - 5_000 <= db.canonicals[c].createdAt <= mirror.createdAt + 5_000
  }

  /** `page` is a possible answer of the query: the ten newest matches, ties in any order. */
  predicate IsPage(db: Db, mirror: Mirror, page: set<int>) {
    && page <= Matches(db, mirror)
    && |page| == (if |Matches(db, mirror)| < 10 then |Matches(db, mirror)| else 10)
    && forall p, q :: p in page && q in Matches(db, mirror) - page ==>
         db.canonicals[p].createdAt >= db.canonicals[q].createdAt
  }

  datatype Resolution = Nothing | Found(found: int) | Adopt(orphan: int)

  /** `_resolveCanonicalWithdrawalTx` up to the claim: the bridge first, else a single unclaimed match. */
  function ResolveRead(db: Db, w: int, page: set<int>): Resolution
    requires w in db.mirrors
  {
    var mirror := db.mirrors[w];
    if mirror.bridge.Some? then
      if mirror.bridge.value in db.canonicals then Found(mirror.bridge.value) else Nothing
    else if w in db.obligations then Nothing
    else
      var orphans := page - Linked(db);
      if exists c :: c in orphans && orphans == {c} then
        var c :| c in orphans && orphans == {c};
        Adopt(c)
      else Nothing
  }

  /** `claimOrphanCanonical`: the unique bridge index lets one withdrawal win a canonical, once. */
  predicate ClaimWins(db: Db, w: int, c: int)
    requires w in db.mirrors
  {
    if db.mirrors[w].bridge.None? then c !in Linked(db) else db.mirrors[w].bridge == Some(c)
  }

  function Claim(db: Db, w: int, c: int): Db
    requires w in db.mirrors
  {
    if ClaimWins(db, w, c) then db.(mirrors := db.mirrors[w := db.mirrors[w].(bridge := Some(c))]) else db
  }

  // ---------------------------------------------------------------- the two safety decisions

  predicate HasOutbound(db: Db, reference: string) {
    exists e :: e in db.events && e.reference == reference
  }

  function DispatchProviders(db: Db, reference: string): set<Provider> {
    set e | e in db.events && e.reference == reference && e.dispatchedBy.Some? :: e.dispatchedBy.value
  }

  datatype Ownership = Unknown | Owned | Recovered | Conflicting

  /** `resolvePayoutOwner`: recorded owner first, then durable dispatch observations. */
  function PayoutOwner(db: Db, row: Canonical): Ownership {
    if row.reference.None? then Unknown
    else if row.owner.Some? then Owned
    else
      var providers := DispatchProviders(db, row.reference.value);
      if providers == {} then Unknown
      else if |providers| == 1 then Recovered
      else Conflicting
  }

  predicate HasOpenAnomaly(db: Db, entity: Entity) {
    exists key :: key in db.anomalies && key.entity == entity
  }

  datatype Verdict =
    | Safe | NoReference | Settled | AlreadyReversed | NotReversible
    | DispatchEvidence | OwnershipConflict | OwnerKnown | OpenException

  /** `_rejectionSafetyGate`: `row` is the canonical as it was when the handler resolved it. */
  function Gate(db: Db, w: int, row: Canonical): Verdict {
    if row.reference.None? then NoReference
    else if row.status == CanonCompleted then Settled
    else if row.status == CanonFailed then AlreadyReversed
    else if row.status != CanonPending then NotReversible
    else if HasOutbound(db, row.reference.value) then DispatchEvidence
    else if PayoutOwner(db, row) == Conflicting then OwnershipConflict
    else if PayoutOwner(db, row) != Unknown then OwnerKnown
    else if HasOpenAnomaly(db, OfWithdrawal(w)) || HasOpenAnomaly(db, OfTransaction(row.reference.value)) then
      OpenException
    else Safe
  }

  predicate SafelyParked(key: AnomalyKey, phase: Phase) {
    key.reason in SAFE_PARKING && phase in SAFE_PHASES
  }

  /** `_reviewEligibility(...).mayMove`: positive proof, from open records, that nothing was dispatched. */
  predicate MayMove(db: Db, w: int, row: Option<Canonical>) {
    && (exists key :: key in db.anomalies && key.entity == OfWithdrawal(w) && SafelyParked(key, db.anomalies[key]))
    && (forall key :: key in db.anomalies && key.entity == OfWithdrawal(w) ==> SafelyParked(key, db.anomalies[key]))
    && (row.Some? && row.value.reference.Some? ==>
          && !HasOpenAnomaly(db, OfTransaction(row.value.reference.value))
          && row.value.status == CanonPending
          && !HasOutbound(db, row.value.reference.value)
          && PayoutOwner(db, row.value) == Unknown)
  }

  // ---------------------------------------------------------------- commits

  datatype Error = AlreadyFinalized | CanonicalFinalized | NoReferenceToReverse

  datatype Result<+T> = Ok(value: T) | Err(error: Error)

  function SetStatus(db: Db, w: int, status: MirrorStatus): Db
    requires w in db.mirrors
  {
    db.(mirrors := db.mirrors[w := db.mirrors[w].(status := status)])
  }

  /** `reverseFiatWithdrawal`: PENDING to FAILED once, refunding principal and fee. */
  function Reverse(db: Db, c: int, rejected: Option<int>): Result<Db> {
    if c !in db.canonicals || db.canonicals[c].reference.None? then Err(NoReferenceToReverse)
    else if db.canonicals[c].status != CanonPending then Err(CanonicalFinalized)
    else
      var row := db.canonicals[c];
      Ok(db.(canonicals := db.canonicals[c := row.(status := CanonFailed)],
             refunds := db.refunds + [Reversal(c, rejected, row.amount + row.fee)]))
  }

  /** The statuses a rejection may claim: the review endpoint claims parked rows, the other one live rows. */
  predicate Claimable(status: MirrorStatus, review: bool) {
    if review then status == NeedsReview else status == Pending || status == Approved
  }

  /** One transaction: mirror claim plus canonical reversal, or mirror claim plus legacy refund. */
  function CommitReject(db: Db, w: int, review: bool, canonical: Option<int>): Result<Db> {
    if w !in db.mirrors || !Claimable(db.mirrors[w].status, review) then Err(AlreadyFinalized)
    else if canonical.Some? then Reverse(SetStatus(db, w, Rejected), canonical.value, Some(w))
    else
      var claimed := SetStatus(db, w, Rejected);
      Ok(claimed.(refunds := db.refunds + [LegacyRefund(w, db.mirrors[w].amount)],
                  obligations := db.obligations - {w}))
  }

  function CommitResume(db: Db, w: int): Result<Db> {
    if w !in db.mirrors || db.mirrors[w].status != NeedsReview then Err(AlreadyFinalized)
    else Ok(SetStatus(db, w, Pending))
  }

  function HandoffKey(w: int): AnomalyKey {
    AnomalyKey(OfWithdrawal(w), EscalatedToReconciliation)
  }

  function CommitEscalate(db: Db, w: int): Result<Db> {
    if w !in db.mirrors || db.mirrors[w].status != NeedsReview then Err(AlreadyFinalized)
    else
      var claimed := SetStatus(db, w, Processing);
      Ok(claimed.(anomalies := db.anomalies[HandoffKey(w) := NoPhase]))
  }

  // ---------------------------------------------------------------- runs

  datatype Seen = Seen(id: int, row: Canonical)

  /** How far a handler or worker got: status read, orphan picked, canonical resolved, safety decision passed. */
  datatype Ticket =
    | Opened(w: int, review: bool)
    | Claiming(w: int, review: bool, orphan: Seen, worker: bool)
    | Resolved(w: int, review: bool, seen: Option<Seen>)
    | Cleared(w: int, review: bool, canonical: Option<int>)

  datatype System = System(db: Db, tickets: seq<Ticket>)

  datatype Decision = Resume | RejectIt | Escalate

  datatype Step =
    // the environment: withdrawal creation, payout workers, settlement, the exception queue
    | NewMirror(newW: int, userId: int, amount: int, createdAt: int, ownObligation: bool, canonicalOf: Option<Seen>)
    | NewCanonical(newC: int, newRow: Canonical)
    | DropObligation(dropped: int)
    | Move(moved: int, to: MirrorStatus)
    | WriteEvent(eventC: int, dispatchedBy: Option<Provider>)
    | WriteOwner(ownedC: int, owner: Provider)
    | Settle(settledC: int, outcome: CanonicalStatus)
    | ProviderFailed(failedC: int)
    | Raise(key: AnomalyKey, phase: Phase)
    | Close(closedKey: AnomalyKey)
    | Pick(pickedW: int, pickedC: int)
    // the handlers, phase by phase; claims are shared with the workers
    | Open(openedW: int, forReview: bool)
    | Resolve(k: nat, page: set<int>)
    | ClaimOrphan(k: nat)
    | Clear(k: nat)
    | FinishReject(k: nat)
    | FinishResume(k: nat)
    | FinishEscalate(k: nat)
    // a whole review decision as one step
    | Review(reviewedW: int, decision: Decision, reviewPage: set<int>)

  /** The status moves of workers, dispatch and admin approval. */
  predicate LegalMove(from: MirrorStatus, to: MirrorStatus) {
    match to
    case Approved => from == Pending
    case Processing => from == Pending || from == Approved
    case Dispatching => from == Pending
    case NeedsReview => from == Pending || from == Approved || from == Processing
    case Completed => !Terminal(from)
    case Failed => !Terminal(from)
    case _ => false
  }

  predicate Terminal(status: MirrorStatus) {
    status == Rejected || status == Completed || status == Failed
  }

  /** Not yet claimed by a dispatcher: the statuses `rejectWithdrawal` may refund from. */
  predicate Undispatched(status: MirrorStatus) {
    status == Pending || status == Approved
  }

  predicate BridgedDispatched(db: Db, c: int) {
    exists w :: w in db.mirrors && db.mirrors[w].bridge == Some(c) && !Undispatched(db.mirrors[w].status)
  }

  predicate FreshRow(db: Db, c: int, row: Canonical) {
    && c !in db.canonicals
    && row.status == CanonPending && row.owner.None?
    && (row.reference.Some? ==> forall d :: d in db.canonicals ==> db.canonicals[d].reference != row.reference)
  }

  function Create(db: Db, step: Step): Db
    requires step.NewMirror?
  {
    if step.newW in db.mirrors
       || (step.canonicalOf.Some? && !FreshRow(db, step.canonicalOf.value.id, step.canonicalOf.value.row)) then db
    else
      var bridge := if step.canonicalOf.Some? then Some(step.canonicalOf.value.id) else None;
      db.(mirrors := db.mirrors[step.newW := Mirror(step.userId, step.amount, step.createdAt, Pending, bridge)],
          canonicals := if bridge.Some? then db.canonicals[bridge.value := step.canonicalOf.value.row]
                        else db.canonicals,
          obligations := if step.ownObligation then db.obligations + {step.newW} else db.obligations)
  }

  function Environment(db: Db, step: Step): Db {
    match step
    case NewMirror(_, _, _, _, _, _) => Create(db, step)
    case NewCanonical(c, row) => if FreshRow(db, c, row) then db.(canonicals := db.canonicals[c := row]) else db
    case DropObligation(w) => db.(obligations := db.obligations - {w})
    case Move(w, to) =>
      if w in db.mirrors && LegalMove(db.mirrors[w].status, to) then SetStatus(db, w, to) else db
    case WriteEvent(c, dispatcher) =>
      if c in db.canonicals && db.canonicals[c].reference.Some? && BridgedDispatched(db, c)
      then db.(events := db.events + {Event(db.canonicals[c].reference.value, dispatcher)}) else db
    case WriteOwner(c, owner) =>
      if c in db.canonicals && BridgedDispatched(db, c)
      then db.(canonicals := db.canonicals[c := db.canonicals[c].(owner := Some(owner))]) else db
    case Settle(c, outcome) =>
      if c in db.canonicals && db.canonicals[c].status == CanonPending && outcome != CanonFailed
      then db.(canonicals := db.canonicals[c := db.canonicals[c].(status := outcome)]) else db
    case ProviderFailed(c) => var r := Reverse(db, c, None); if r.Ok? then r.value else db
    case Raise(key, phase) =>
      if key.reason != EscalatedToReconciliation then db.(anomalies := db.anomalies[key := phase]) else db
    case Close(key) => db.(anomalies := db.anomalies - {key})
    case _ => db
  }

  function Give(s: System, ticket: Ticket): System {
    s.(tickets := s.tickets + [ticket])
  }

  function ResolveTicket(s: System, t: Ticket, page: set<int>): System {
    if !t.Opened? || t.w !in s.db.mirrors || !IsPage(s.db, s.db.mirrors[t.w], page) then s
    else
      match ResolveRead(s.db, t.w, page)
      case Nothing => Give(s, Resolved(t.w, t.review, None))
      case Found(c) => Give(s, Resolved(t.w, t.review, Some(Seen(c, s.db.canonicals[c]))))
      case Adopt(c) => Give(s, Claiming(t.w, t.review, Seen(c, s.db.canonicals[c]), false))
  }

  /**
   A payout or reconciliation worker resolves the canonical of a live withdrawal, bridge and own
   obligation permitting, and will claim it. Any unclaimed match with a reference may be its pick.
   */
  function PickOrphan(s: System, w: int, c: int): System {
    if w !in s.db.mirrors || Terminal(s.db.mirrors[w].status) || s.db.mirrors[w].bridge.Some? || w in s.db.obligations
       || c !in Matches(s.db, s.db.mirrors[w]) - Linked(s.db) || s.db.canonicals[c].reference.None? then s
    else Give(s, Claiming(w, false, Seen(c, s.db.canonicals[c]), true))
  }

  function ClaimTicket(s: System, t: Ticket): System {
    if !t.Claiming? || t.w !in s.db.mirrors then s
    else
      var claimed := s.(db := Claim(s.db, t.w, t.orphan.id));
      if t.worker then claimed
      else Give(claimed, Resolved(t.w, t.review, if ClaimWins(s.db, t.w, t.orphan.id) then Some(t.orphan) else None))
  }

  predicate Decides(db: Db, t: Ticket)
    requires t.Resolved?
  {
    if t.review then MayMove(db, t.w, if t.seen.Some? then Some(t.seen.value.row) else None)
    else t.seen.Some? ==> Gate(db, t.w, t.seen.value.row) == Safe
  }

  function ClearTicket(s: System, t: Ticket): System {
    if !t.Resolved? || !Decides(s.db, t) then s
    else Give(s, Cleared(t.w, t.review, if t.seen.Some? then Some(t.seen.value.id) else None))
  }

  function Apply(s: System, r: Result<Db>): System {
    if r.Ok? then s.(db := r.value) else s
  }

  /** Resolving and claiming back to back, as one review decision does. */
  function ResolveNow(db: Db, w: int, page: set<int>): (r: (Db, Option<int>))
    requires w in db.mirrors && IsPage(db, db.mirrors[w], page)
    ensures w in r.0.mirrors
    ensures r.1.Some? ==> r.1.value in r.0.canonicals
  {
    match ResolveRead(db, w, page)
    case Nothing => (db, None)
    case Found(c) => (db, Some(c))
    case Adopt(c) => (Claim(db, w, c), if ClaimWins(db, w, c) then Some(c) else None)
  }

  /** Carrying out a review decision on a resolved row; a refused or lost decision leaves it as it is. */
  function Decide(db: Db, w: int, decision: Decision, canonical: Option<int>): Db
    requires canonical.Some? ==> canonical.value in db.canonicals
  {
    var row := if canonical.Some? then Some(db.canonicals[canonical.value]) else None;
    var outcome :=
      if decision == Escalate then CommitEscalate(db, w)
      else if !MayMove(db, w, row) then Ok(db)
      else if decision == Resume then CommitResume(db, w)
      else CommitReject(db, w, true, canonical);
    if outcome.Ok? then outcome.value else db
  }

  function ReviewNow(db: Db, w: int, decision: Decision, page: set<int>): Db {
    if w !in db.mirrors || db.mirrors[w].status != NeedsReview || !IsPage(db, db.mirrors[w], page) then db
    else
      var (resolved, canonical) := ResolveNow(db, w, page);
      Decide(resolved, w, decision, canonical)
  }

  function Next(s: System, step: Step): System {
    match step
    case Open(w, review) =>
      if w in s.db.mirrors && Claimable(s.db.mirrors[w].status, review) then Give(s, Opened(w, review)) else s
    case Pick(w, c) => PickOrphan(s, w, c)
    case Resolve(k, page) => if k < |s.tickets| then ResolveTicket(s, s.tickets[k], page) else s
    case ClaimOrphan(k) => if k < |s.tickets| then ClaimTicket(s, s.tickets[k]) else s
    case Clear(k) => if k < |s.tickets| then ClearTicket(s, s.tickets[k]) else s
    case FinishReject(k) =>
      if k < |s.tickets| && s.tickets[k].Cleared?
      then Apply(s, CommitReject(s.db, s.tickets[k].w, s.tickets[k].review, s.tickets[k].canonical)) else s
    case FinishResume(k) =>
      if k < |s.tickets| && s.tickets[k].Cleared? && s.tickets[k].review
      then Apply(s, CommitResume(s.db, s.tickets[k].w)) else s
    case FinishEscalate(k) =>
      if k < |s.tickets| && s.tickets[k].Resolved? && s.tickets[k].review
      then Apply(s, CommitEscalate(s.db, s.tickets[k].w)) else s
    case Review(w, decision, page) => s.(db := ReviewNow(s.db, w, decision, page))
    case _ => s.(db := Environment(s.db, step))
  }

  function Run(s: System, steps: seq<Step>): System {
    if steps == [] then s else Next(Run(s, steps[..|steps| - 1]), steps[|steps| - 1])
  }

  const INITIAL: System := System(Db(map[], map[], {}, map[], {}, []), [])
}
