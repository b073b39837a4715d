# A verified model of the platform's money controls

The platform lets admins approve, reject and review customer withdrawals, resolve
disputed trades, credit balances and manage each other's roles; customers convert AZM
to USDC, deposit crypto, vote on proposals, book hotel rooms and browse each other's
records. Almost all of it rests on optimistic concurrency: a handler reads, decides, and
then commits with an update that names the status it expects. This project states what
those handlers guarantee over *every* run and proves it.

## How it is modelled

* **Money** is an integer number of 10^-8 units; the AZM rate is in micro-USDC.
* **A transaction is one step.** A handler that reads before its transaction is split:
  in the approval and refund models the read leaves a *ticket* holding what it saw, and
  the commit may follow after any number of other steps; in the treasury model a commit
  takes the stale values as unconstrained arguments. A run is any sequence of steps, and
  the theorems quantify over all of them.
* **Handlers that change rows** are methods of one class per controller (`Desk`). Each
  ends in exactly the state of a specification function of the state it started from,
  keeps the invariant the theorems rest on, and says exactly when it succeeds and what that
  changes. The `…Rules` modules state those conditions without the handlers' code.
* **Services the controllers call** appear only as what callers rely on:
  `reverseFiatWithdrawal` (PENDING to FAILED once, with refund), `claimOrphanCanonical`
  (one winner, write-once), `completeTrade` (claims DISPUTED, drains the escrow, posts
  once) and `ledger.post` (balanced lines, one posting per key). Provider workers, role
  changes and bans are environment steps.

| file | content |
|---|---|
| `Common`, `DecimalText`, `Finite` | options and units; printing and parsing ids; a set fact |
| `AdminRoles` | effective roles, permissions, amount tiers |
| `Approvals`, `QuorumProofs`, `ApprovalRules`, `ApprovalDesk` | approval requests and the withdrawals they pay for |
| `Refunds`, `RefundProofs`, `PairProofs`, `DispatchProofs`, `StaleReview`, `RejectionRules`, `RefundDesk` | rejection, bridge, safety gate and manual review |
| `Ledger`, `Quota`, `Treasury`, `TreasuryProofs`, `ConversionProofs`, `QuotaProofs`, `TreasuryRules`, `TreasuryDesk` | double entry, escrow, refunds, credit, deposit, AZM conversion |
| `RoleProvisioning`, `RoleDesk` | assigning and removing admin roles |
| `Governance`, `GovernanceRules`, `GovernanceRaces`, `GovernanceDesk` | proposals, votes, timelock |
| `MediaMerge`, `FriendCounters`, `HotelRates` | fast forms and the simple forms they must agree with |

## What turned out not to hold

* A review decision checks eligibility outside its commit. If two operators act at once,
  a payout can be resumed, dispatched and parked again between one operator's check and
  that operator's rejection, and the rejection then refunds a dispatched payout:
  `StaleReview.StaleReviewRefundsDispatched` builds the run. `DispatchProofs.DispatchSafeIff`
  says exactly which runs are safe: those whose review commits find neither outbound
  evidence nor an open handoff. Checking eligibility inside the transaction is enough
  (`EligibilityRechecks`); `rejectWithdrawal` needs nothing of the kind.
* A rejection that found no canonical row refunds the withdrawal on its status alone. If
  the row is bridged around that moment and later fails at the provider, the payout is
  refunded twice (`PairProofs.LegacyRefundDoubles`). `PairRefundedOnceIff` gives the exact
  condition: the legacy commit has to find no bridge, and an orphan claim no REJECTED row.
* Governance commits name their row by id alone. A vote read in time can land after the
  proposal passed (`GovernanceRaces.LateVoteIsOverridden`), and a second finalization can
  reopen an executed proposal (`StaleCloseReopens`). `LifecycleIff` says exactly what each
  commit would have to find; the tallies match the votes regardless.
* The AZM quota is read outside the commit, so overlapping conversions can spend it
  twice (`QuotaProofs.OverlapDoublesQuota`); `QuotaHoldsIff` gives the exact condition.
* The price band 0.0005 to 0.00115 USDC per AZM can be missed by less than a base unit
  when the payout is rounded to eight decimals (`ConversionProofs.RoundingLeavesBand`);
  `BandExactly` says for which amounts.
* The ledger takes no empty line, so a SELL trade whose vendor share rounds to zero cannot
  be released (`TreasuryRules.ReleaseExactly`).
* Batched friend counters count a completed row twice when both its sides name the
  friend (`FriendCounters.SelfTicketCountsTwice`), and only then (`BatchedAgreesIff`).
  Friend requests, direct tickets and conversation payments refuse self-pairs
  (controllers/friendController.js:196, controllers/ticketController.js:157,
  services/conversationMoneyService.js:177); an escrow checkout at one's own store does not
  and opens such a ticket (routes/storefrontRoutes.js:612-637), which either side may close
  (controllers/ticketController.js:569-616).

Where comments and code disagree the model follows the code. The approval tiers are
documented as "above 50k" and apply from 50,000 inclusive
(controllers/adminRbacController.js:155-166); governance documents "more than 60%" and
accepts exactly 60%; the admin-credit handler describes its claim as unique per admin,
user and key, while the route's claim is unique per admin, route pattern and key
(routes/adminRoutes.js:279, middleware/idempotency.js:172-183).

## Model

| member | source | states |
|---|---|---|
| `DecimalText.ParsePrinted` | controllers/adminController.js:1559-1562 | Parsing a printed withdrawal id gives the id back, so a request found under the printed id was bound to that withdrawal. |
| `DecimalText.PrintedInjective` | controllers/adminController.js:1559-1562 | Two withdrawals never share a printed id. |
| `DecimalText.ParseIgnoresRest` | controllers/adminRbacController.js:323-331 | Parsing an entity id ignores whatever follows its digits. |
| `DecimalText.ParseNegative` | controllers/adminRbacController.js:323-331 | A minus sign negates the parsed id. |
| `DecimalText.ParseRefuses` | controllers/adminRbacController.js:323-331 | Text that does not start a number is no id. |
| `AdminRoles.QuorumRolesAreWithdrawalApprovers` | controllers/adminRbacController.js:161-203 | From 10,000 up, the roles a tier admits are exactly those holding the withdrawal-approval permission. |
| `AdminRoles.RoleExactly` | controllers/adminRbacController.js:221-241 | Exactly the live ADMIN accounts hold a role, a catalog one exactly if the assignment names it. |
| `AdminRoles.WhoMayAct` | controllers/adminRbacController.js:33-138 | For every action the roles that may request, approve or reject it, and no others. |
| `AdminRoles.ApprovalsNeeded` | controllers/adminRbacController.js:161-196 | None below 1,000, one from there, two from 10,000, three from 50,000; one for a ban or tier change whatever the amount. |
| `AdminRoles.WhoTheTierAdmits` | controllers/adminRbacController.js:161-203 | Below 10,000 a tier admits every role, from there only legacy, Super, Finance and Compliance admins. |
| `Approvals.FirstEvidence` | controllers/adminController.js:1559-1623 | The search returns the lowest request with passing evidence; every earlier one fails, and none passes when it returns nothing. |
| `QuorumProofs.QuorumProtocol` | controllers/adminRbacController.js:393-528 | In every reachable state each request is bound to its withdrawal's amount and tier; non-automatic ones carry distinct approvers, never the requester, each stamped with a role allowed the action and the tier, Finance or Compliance first from 50,000, fewer than required while PENDING and exactly as many once APPROVED or EXECUTED. |
| `QuorumProofs.RunEvolves` | controllers/adminRbacController.js:490-514 | Over every run a request's terms are fixed, its approvals only grow, its terminal states are final and withdrawal amounts do not change. |
| `QuorumProofs.ApprovalNeverLost` | controllers/adminRbacController.js:490-514 | An approval whose compare-and-swap landed keeps its place through every later run. |
| `QuorumProofs.EvidenceIsQualification` | controllers/adminController.js:1566-1622 | For a candidate request the amount, tier, count and distinctness checks always pass; only the approvers' live roles decide. |
| `QuorumProofs.SearchFindsLowestQualified` | controllers/adminController.js:1557-1636 | In every reachable state a withdrawal of 10,000 or more is approved with the lowest candidate whose approvers still qualify, and refused unchanged exactly when there is none. |
| `QuorumProofs.FlipSpendsOneQuorum` | controllers/adminController.js:1524-1675 | In every run such a withdrawal goes PENDING to APPROVED only by executing exactly one request for it and its amount, with 2 (3 from 50,000) distinct non-requesters who all may still approve withdrawals, one of them Finance or Compliance from 50,000. |
| `QuorumProofs.CommitIsPaid` | controllers/adminController.js:1524-1675 | The same for any tables that satisfy the request invariant: a committed approval names the one request that paid for it. |
| `QuorumProofs.ExecutedMatchesFlips` | controllers/adminController.js:1638-1675 | Over every run the EXECUTED requests filed under a withdrawal number exactly its quorum approvals. |
| `ApprovalRules.CreateExactly` | controllers/adminRbacController.js:279-376 | A request is created exactly by an admin allowed the action, for a withdrawal exactly on a PENDING row whose amount the client does not contradict; it takes the stored amount and is automatic exactly below 1,000, never for a ban or tier change. |
| `ApprovalRules.ApproveExactly` | controllers/adminRbacController.js:399-497 | A ticket to approve is issued exactly to a live admin allowed the action and admitted by the tier, who has not stamped and did not request, with Finance or Compliance taking part from 50,000; it is stamped with the live role. |
| `ApprovalRules.RejectExactly` | controllers/adminRbacController.js:563-629 | A request is rejected exactly when PENDING and by an admin allowed its action, and nothing else changes. |
| `ApprovalRules.LiveQuorumQualifies` | controllers/adminController.js:1566-1622 | The evidence checks accept exactly a request all of whose approvers may still approve withdrawals, one Finance or Compliance from 50,000. |
| `ApprovalRules.PayExactly` | controllers/adminController.js:1524-1675 | A withdrawal is approved exactly when PENDING and, from 10,000, a live quorum stands for it; it becomes APPROVED, the lowest quorum is spent, and every other payout, request and role stays. |
| `ApprovalDesk.Desk.BeginCreate` | controllers/adminRbacController.js:279-376 | Succeeds exactly for those who may create the request; the ticket is bound to the stored withdrawal and its amount and sized by the right tier. |
| `ApprovalDesk.Desk.FinishCreate` | controllers/adminRbacController.js:362-380 | Keeps the request invariant and leaves every existing request, stamp and amount as it was. |
| `ApprovalDesk.Desk.AlreadyApproved` | controllers/adminRbacController.js:436-441 | Finds whether an admin already approved. |
| `ApprovalDesk.Desk.FinanceParticipates` | controllers/adminRbacController.js:462-473 | Finds whether an earlier approver is Finance or Compliance now. |
| `ApprovalDesk.Desk.BeginApprove` | controllers/adminRbacController.js:399-497 | Hands out a ticket exactly to those who may approve, stamped with the live role, and good for the tables it saw. |
| `ApprovalDesk.Desk.FinishApprove` | controllers/adminRbacController.js:499-521 | Lands exactly on the approvals seen, appends the stamp, becomes APPROVED exactly at the tier's count, and keeps the request invariant. |
| `ApprovalDesk.Desk.RejectOne` | controllers/adminRbacController.js:563-629 | Succeeds exactly for a PENDING request and an admin allowed its action; then that request is REJECTED for good and no other row changes. |
| `ApprovalDesk.Desk.CheckEvidence` | controllers/adminController.js:1566-1622 | The five checks in order accept exactly passing evidence. |
| `ApprovalDesk.Desk.FindEvidence` | controllers/adminController.js:1559-1623 | The candidate loop computes the lowest passing request. |
| `ApprovalDesk.Desk.BeginApprovePayout` | controllers/adminController.js:1472-1516 | Lets pass exactly a PENDING stored withdrawal and an admin who may approve withdrawals. |
| `ApprovalDesk.Desk.FinishApprovePayout` | controllers/adminController.js:1524-1675 | Succeeds exactly when the withdrawal is PENDING and, from 10,000, a live quorum stands for it; then it is APPROVED, every other payout is as before, and below 10,000 every request too, from there all but the one executed. |
| `RefundProofs.RefundAtMostOnce` | controllers/adminController.js:1788-1806 | Under every interleaving a withdrawal has been refunded by rejection exactly once if REJECTED and never otherwise; a canonical has been reversed exactly once if FAILED and never otherwise. `PairRefundedOnceIff` takes the two together. |
| `PairProofs.PairRefundedOnceIff` | controllers/adminController.js:1851-1858 | Over every run a payout, its withdrawal and bridged canonical together, is refunded at most once if and only if not both: its canonical was reversed, and some legacy rejection landed on it when bridged or some orphan claim when REJECTED. Never more than twice, and not at all exactly when neither REJECTED nor reversed. |
| `PairProofs.PairRefundedOnce` | controllers/adminController.js:1788-1806 | When only rejections reverse canonicals, a payout is refunded exactly once if REJECTED and never otherwise, whatever the interleaving. |
| `PairProofs.ExposureExactly` | controllers/adminController.js:2017-2033 | A withdrawal becomes both legacy-refunded and bridged exactly by one of those two commits; no other step does it or undoes it. |
| `PairProofs.LegacyRefundDoubles` | controllers/adminController.js:1851-1858 | A concrete run over rows from before the bridge that refunds one payout twice: two rows match, the rejection goes the legacy way, workers bridge one row to the withdrawal before it lands, and the provider fails that row. |
| `PairProofs.RejectRefundsOnce` | controllers/adminController.js:1786-1904 | A rejection that acts on the bridge present at its commit makes the payout's refunds exactly one. |
| `PairProofs.ReviewRefundsOnce` | controllers/adminController.js:2733-2829 | So does a review decided in one go that ends in rejection. |
| `RefundProofs.CanonicalRejectionIsAtomic` | controllers/adminController.js:1785-1806 | A canonical-path rejection turns the bridged pair REJECTED and FAILED together with one refund of principal and fee, or changes nothing. |
| `RefundProofs.RunEvolves` | controllers/adminController.js:1851-1904 | Over every run bridges are write-once, rows and amounts stay, terminal states are final and refunds are only appended. |
| `RefundProofs.BridgeIdentity` | controllers/adminController.js:1950-2037 | In every reachable state the bridge is injective and every canonical reversed by a rejection is the rejected withdrawal's own. |
| `RefundProofs.OwnerNeverAdopts` | controllers/adminController.js:1961-2037 | A withdrawal with an active obligation of its own never gains a bridge, however stale the claim. |
| `DispatchProofs.DispatchSafeIff` | controllers/adminController.js:2613-2829 | A run never refunds or resumes a dispatched or escalated payout if and only if every review that landed found neither outbound evidence nor an open handoff at its commit. Nothing is asked of the rejection handler. |
| `DispatchProofs.ReviewRejectExactly` | controllers/adminController.js:2733-2749 | A review's REJECT, decided earlier, refunds exactly when the row is still parked and the canonical it saw is still PENDING with a reference: eligibility is not looked at again. |
| `DispatchProofs.ReviewResumeExactly` | controllers/adminController.js:2639-2646 | A review's RESUME, decided earlier, lands exactly when the row is still parked. |
| `DispatchProofs.EligibilityRechecks` | controllers/adminController.js:2516-2580 | Deciding eligibility at the commit, on the row bridged then, meets the condition. |
| `DispatchProofs.WholeReviewsAreRechecked` | controllers/adminController.js:2613-2829 | So does taking every review decision in one step. |
| `DispatchProofs.NoRefundPastDispatch` | controllers/adminController.js:2044-2110 | With outbound evidence on its canonical no step refunds a withdrawal, however old the rejection gate's read, as long as review commits find neither evidence nor handoff. |
| `DispatchProofs.EscalationHolds` | controllers/adminController.js:2639-2698 | While the escalation handoff is open no RESUME, review REJECT or rejection succeeds, under the same condition on review commits. |
| `RejectionRules.EscalationOpens` | controllers/adminController.js:2676-2698 | Whatever takes a parked withdrawal to PROCESSING opens its handoff in the same step. |
| `RejectionRules.EscalatedUntilClosed` | controllers/adminController.js:2676-2698 | After an escalation, until its handoff is closed, no later step of the run refunds or resumes the withdrawal, review commits being checked. |
| `RejectionRules.OwnerExactly` | services/payoutProviderOwnership.js:283-337 | A recorded owner wins; otherwise one observed dispatcher is the owner, two conflict, none is unknown. |
| `RejectionRules.GateExactly` | controllers/adminController.js:2044-2110 | One exact condition per answer, in order; the gate lets a rejection pass exactly for a referenced PENDING unowned row with no outbound event and no open exception on the withdrawal or the transaction. |
| `RejectionRules.EligibleExactly` | controllers/adminController.js:2450-2580 | Review may move a payout exactly when it has open records, each with one of eight reasons in a proven phase, and its referenced row, if any, is PENDING, unowned, without outbound event or open exception. |
| `RejectionRules.ClearedWasChecked` | controllers/adminController.js:1772-1782 | Over every run, each rejection under way was cleared on a state that allowed it, by the gate or by eligibility. |
| `RejectionRules.ResolveExactly` | controllers/adminController.js:1961-2037 | An own bridge is the answer; an own obligation means none; else a row is adopted exactly when it is the only unclaimed match, and only that bridge changes. |
| `RejectionRules.AdoptedRowsBelong` | controllers/adminController.js:1985-2033 | A bridge that any step of any run sets on a stored withdrawal leads to a row of the same user and amount, created within five seconds. |
| `RejectionRules.PageExactly` | controllers/adminController.js:1985-2008 | Up to ten matches are all seen, never more. |
| `RejectionRules.ClaimExactly` | services/withdrawalBridgeService.js:64-120 | A claim wins exactly a row nobody holds or the one already held, and sets only this bridge. |
| `RejectionRules.RejectExactly` | controllers/adminController.js:1786-1904 | A rejection lands exactly on a PENDING or APPROVED row, a parked one for a review, whose canonical, if it acts on one, is PENDING with a reference. |
| `RejectionRules.ReviewExactly` | controllers/adminController.js:2613-2829 | Each decision on a parked row, exactly: ESCALATE makes it PROCESSING and opens the handoff; RESUME makes it PENDING exactly if eligible; REJECT refunds it exactly if eligible and reversible; everything else stays. |
| `DispatchProofs.ReviewImpliesGateChecks` | controllers/adminController.js:2516-2580 | A referenced payout that review may move fails the rejection gate only on its own parking record. |
| `DispatchProofs.ConflictIsShadowed` | controllers/adminController.js:2061-2078 | The gate's ownership-conflict answer is never reached: outbound evidence decides first. |
| `StaleReview.StaleReviewRefundsDispatched` | controllers/adminController.js:2733-2749 | A concrete run in which a split review refunds a dispatched payout. |
| `RefundDesk.Desk.ResolveCanonical` | controllers/adminController.js:1950-2037 | An own bridge, none with an own obligation, else exactly the only unclaimed match, of the same user and amount; no earlier bridge changes. |
| `RefundDesk.Desk.CheckGate` | controllers/adminController.js:2044-2110 | Answers Safe exactly when rejection is safe by the stored events, anomalies and row, and each refusal exactly for its reason. |
| `RefundDesk.Desk.OwnerOf` | services/payoutProviderOwnership.js:283-337 | Recorded owner, conflict of two observed dispatchers, or one recovered, each exactly. |
| `RefundDesk.Desk.OpenAnomalies` | controllers/adminController.js:2519-2524 | Collects exactly the open exceptions of an entity. |
| `RefundDesk.Desk.ReadParking` | controllers/adminController.js:2519-2542 | No blockers exactly when there is a safe parking record and every open record is one. |
| `RefundDesk.Desk.CheckReview` | controllers/adminController.js:2516-2580 | The accumulated blockers are empty exactly when the payout is eligible. |
| `RefundDesk.Desk.FinishReject` | controllers/adminController.js:1786-1904 | Lands exactly on an open row with a reversible canonical; then it is the withdrawal's only rejection, with the refund of its amount or of principal and fee, and on the bridge present the payout's only refund. |
| `RefundDesk.Desk.ResolveReview` | controllers/adminController.js:2613-2829 | The effect of each decision, exactly; a payout is refunded at most once and none that was dispatched or escalated moves. |
| `Ledger.TransferLines` | services/ledgerService.js:332-530 | A two-line posting balances and moves its amount between its two accounts only. |
| `Ledger.PostExactly` | services/ledgerService.js:332-530 | Two or more one-sided lines that balance are posted once per key; the same again is a replay, anything else is refused. |
| `TreasuryProofs.PostsOnce` | services/ledgerService.js:332-530 | Every committed step posts balanced lines under a key never used before. |
| `TreasuryProofs.LedgerSumsToZero` | controllers/adminController.js:311-336 | Over every run the ledger sums to zero. |
| `TreasuryProofs.BalancesFollowLedger` | controllers/adminController.js:3158-3206 | Over every run mixing all steps, each user's available and unallocated balance moves exactly as its ledger accounts do. |
| `TreasuryProofs.EscrowSingleExit` | controllers/adminController.js:276-309 | Under any stale force-cancels and force-releases a user's locked balance is the principal of the unresolved trades, equals the escrow accounts and is never negative; a trade's escrow is drained by one posting once resolved and by none before. |
| `TreasuryProofs.CancelSucceedsIffDisputed` | controllers/adminController.js:276-336 | In every reachable state a force-cancel takes effect exactly when the trade is DISPUTED: neither the balance constraint nor the ledger refuses it. |
| `TreasuryProofs.CancelIffDisputed` | controllers/adminController.js:276-336 | The same for any books that satisfy the invariant. |
| `TreasuryProofs.StepKeepsBooks` | controllers/adminController.js:276-336 | Every step keeps the books and moves each customer's columns as its accounts. |
| `TreasuryProofs.CreditExactlyOnce` | controllers/adminController.js:3147-3225 | A claim still held is COMMITTED exactly when its history row exists; that row is then unique, carries its amount and user, and is posted once. |
| `TreasuryProofs.DepositExactlyOnce` | controllers/depositController.js:207-357 | A hash is recorded at most once; hot wallet, master crypto and clearing account all move by the recorded deposits, each row backed by one posting of its amount to its user. |
| `TreasuryRules.RateExactly` | controllers/azmConversionController.js:46-77 | 1000 micro-USDC from a pool of 10,000, 500 at 5,000 or below, in between the integer nearest to the pool over ten; for accounts of 90 days 1.15 times the unrounded value. |
| `TreasuryRules.RateMonotone` | controllers/azmConversionController.js:46-77 | A fuller pool never lowers the rate and an old account never gets less. |
| `TreasuryRules.ConvertExactly` | controllers/azmConversionController.js:96-243 | A conversion succeeds exactly from ten AZM, within 5000 of the 24 hours before its check, and with balance and pool to back it; it pays the nearest base unit to amount times rate, and changes just the two balances, pool, log and ledger. |
| `TreasuryRules.OpenExactly` | controllers/tradeController.js:440-510 | A trade locks escrow exactly with funds in the right bucket, and moves just that. |
| `TreasuryRules.CancelExactly` | controllers/adminController.js:276-336 | A force-cancel takes effect exactly on a disputed trade, and returns the escrow to the bucket it came from. |
| `TreasuryRules.ReleaseExactly` | services/p2p.service.js:713-945 | A force-release takes effect exactly on a disputed trade whose settlement pays somebody; shares, pool cut and escrow move as split and nothing else. |
| `TreasuryRules.SettleAccepted` | services/p2p.service.js:900-945 | The settlement lines balance whatever the dust, and are accepted exactly when every share is paid. |
| `TreasuryRules.RefundExactly` | controllers/adminController.js:1851-1904 | A mirror-only refund succeeds exactly on a live row, a parked one for a review, of positive amount, from reserves if an obligation backs it and from equity if not. |
| `TreasuryRules.CreditExactly` | controllers/adminController.js:3147-3225 | A credit succeeds exactly on a claim in progress for a positive amount and an existing user, and books user, row, claim and posting. |
| `TreasuryRules.MintExactly` | middleware/idempotency.js:176-215 | A key is claimed exactly when the admin holds no claim on it, in progress or committed. |
| `TreasuryRules.ReleaseClaimExactly` | middleware/idempotency.js:274-276 | Only a claim in progress is released; a committed one is kept. |
| `TreasuryRules.DepositExactly` | controllers/depositController.js:207-357 | A deposit succeeds exactly for an exact positive amount, a registered address, an existing user and an unrecorded hash, and books the same amount everywhere. |
| `ConversionProofs.RateBounds` | controllers/azmConversionController.js:46-77 | The rounded rate lies between 500 and 1150 micro-USDC whatever the pool. |
| `ConversionProofs.BandExactly` | controllers/azmConversionController.js:120-122 | One conversion pays within 0.0005 to 0.00115 per AZM exactly when its payout rounds inward at the two extreme rates. |
| `ConversionProofs.RoundingLeavesBand` | controllers/azmConversionController.js:120-122 | A conversion that commits and is paid below the band. |
| `ConversionProofs.InwardTotals` | controllers/azmConversionController.js:120-204 | When every conversion rounds inward the totals are in the band exactly. |
| `ConversionProofs.ConversionTotals` | controllers/azmConversionController.js:120-204 | Under any interleaving with stale rates, pool and AZM balances stay non-negative, each user's burn equals that user's logs, each logged conversion is in the band exactly when it rounds inward, and the totals keep to the band, exactly or up to half a base unit per conversion. |
| `ConversionProofs.WealthConserved` | controllers/azmConversionController.js:149-186 | Pool plus customer holdings change over a run by exactly what came in from outside; conversions, locks and cancels conserve them. |
| `Quota.QuotaExactCondition` | controllers/azmConversionController.js:80-93 | Logging keeps every 24-hour window within 5000 AZM if and only if the quota at that moment allows it. |
| `Quota.RoomExactCondition` | controllers/azmConversionController.js:80-93 | For logs in any order of time, one more keeps every window within the limit exactly when the windows were and those ending at it or at a log within a day after it have room. |
| `QuotaProofs.QuotaHoldsIff` | controllers/azmConversionController.js:80-118 | Over every treasury run, overlapping or not and in whatever order of times, every 24-hour window of a user holds at most 5000 AZM if and only if each conversion had room as it was logged: in the day ending at it and in the days ending at logs up to a day after it. |
| `QuotaProofs.ConversionKeepsLimitIff` | controllers/azmConversionController.js:193-204 | For a committed conversion that is the user's latest, room means exactly what the quota query computes at that moment. |
| `QuotaProofs.SlidingQuota` | controllers/azmConversionController.js:80-118 | In treasury runs where a user's conversions do not overlap, every 24-hour window, wherever it starts, holds at most 5000 AZM. |
| `QuotaProofs.OverlapDoublesQuota` | controllers/azmConversionController.js:110-118 | A run of two committed conversions that checked before either logged and spent the quota twice. |
| `TreasuryDesk.Desk.CheckLines` | services/ledgerService.js:332-530 | Accepts exactly two or more one-sided lines whose debits equal credits. |
| `TreasuryDesk.Desk.PostLines` | services/ledgerService.js:332-530 | Appends under a new key, replays an identical posting, refuses anything else unchanged. |
| `TreasuryDesk.Desk.CancelTrade` | controllers/adminController.js:276-336 | Takes effect exactly on a DISPUTED trade, returns the escrow to the right bucket, keeps the books, and columns move as their accounts. |
| `TreasuryDesk.Desk.RefundMirror` | controllers/adminController.js:1851-1904 | Succeeds exactly on a refundable row; books user, row and posting, and keeps the books. |
| `TreasuryDesk.Desk.HashExists` | controllers/depositController.js:207-217 | Finds whether a hash is recorded. |
| `TreasuryDesk.Desk.DailyQuotaRemaining` | controllers/azmConversionController.js:80-93 | The aggregate over a user's logs of the last 24 hours, as the quota left. |
| `TreasuryDesk.Desk.CreditBalance` | controllers/adminController.js:3158-3225 | Succeeds exactly on a creditable claim; credit, row, posting and COMMITTED together for a hash never recorded before; keeps the books. |
| `TreasuryDesk.Desk.DepositCrypto` | controllers/depositController.js:207-357 | Succeeds exactly when both gates and the hash allow it; user, wallets, row and posting gain the same amount together; keeps the books. |
| `TreasuryDesk.Desk.ConvertAzm` | controllers/azmConversionController.js:149-243 | Succeeds exactly when amount, quota, balance and pool allow it, at the rate the quoted pool calls for and for the nearest base unit; keeps the books and a non-negative pool. |
| `RoleProvisioning.GuardsNeverFire` | controllers/adminRoleAdminController.js:154-170 | Once the earlier checks pass, the lockout check and both post-transition checks never trigger. |
| `RoleProvisioning.ManageExactly` | controllers/adminRoleAdminController.js:121-321 | Assigning and deprovisioning succeed exactly for a live Super Admin acting on another live ADMIN account. |
| `RoleProvisioning.OtherSupersExactly` | controllers/adminRoleAdminController.js:154-165 | The lockout query counts exactly the other accounts whose effective role is Super Admin. |
| `RoleProvisioning.SuperAdminSurvives` | controllers/adminRoleAdminController.js:173-321 | From a directory with an active Super Admin every run keeps one. |
| `RoleProvisioning.OthersUntouched` | controllers/adminRoleAdminController.js:200-238 | A mutation changes nobody's effective role but the target's. |
| `RoleProvisioning.AuditDeterminesRoles` | controllers/adminRoleAdminController.js:219-238 | Over every run the latest audit row of an account is its current effective role, and each row starts from what the previous one left. |
| `RoleDesk.Desk.CountOtherSupers` | controllers/adminRoleAdminController.js:154-170 | Counts the other live Super Admins. |
| `RoleDesk.Desk.CheckTarget` | controllers/adminRoleAdminController.js:121-152 | Passes exactly a live Super Admin acting on another live ADMIN account, so the lockout check behind it cannot fire. |
| `RoleDesk.Desk.AssignRole` | controllers/adminRoleAdminController.js:173-238 | Succeeds exactly for those who may manage the target; it ends with the requested role, nobody else's changes, an active Super Admin remains and the audit log still tells every role. |
| `RoleDesk.Desk.DeprovisionAdmin` | controllers/adminRoleAdminController.js:262-321 | Succeeds exactly for those who may manage the target; it ends without admin powers and with its tokens invalidated, everyone else untouched. |
| `GovernanceRules.VerdictExactly` | controllers/governanceController.js:208-236 | EXPIRED exactly short of a tenth of the supply, PASSED exactly with that and sixty percent of the decisive votes, else REJECTED. |
| `GovernanceRules.CreateExactly` | controllers/governanceController.js:46-82 | A thousand AZM, and nothing less, open a proposal with empty tallies for the days asked or seven. |
| `GovernanceRules.CastExactly` | controllers/governanceController.js:120-178 | A vote succeeds exactly once per user while ACTIVE and in time, with at most 100,000 AZM counted for its choice and in the total. |
| `GovernanceRules.FinalizeExactly` | controllers/governanceController.js:192-241 | Closing succeeds exactly on an ACTIVE proposal past its deadline, with the verdict of its tallies and 48 hours of timelock. |
| `GovernanceRules.ExecuteExactly` | controllers/governanceController.js:262-285 | Execution succeeds exactly on a PASSED proposal whose timelock ran out. |
| `Governance.TalliesMatchVotes` | controllers/governanceController.js:125-178 | In every reachable state tallies are the sums of the vote rows, one row per user and proposal, each power positive and at most 100,000 AZM. |
| `Governance.ExecutedRightly` | controllers/governanceController.js:199-285 | An executed proposal had 60% of decisive votes and 10% of supply cast at a finalization not before the deadline, voters enough to carry that quorum at the cap, and ran at least 48 hours later. |
| `Governance.ExecutedIsRight` | controllers/governanceController.js:199-285 | The same for any state that satisfies the invariant. |
| `Governance.ClosedIsFrozen` | controllers/governanceController.js:106-285 | Once closed, a proposal's tallies, deadline, timelock and finalization never change; only execution can follow. |
| `GovernanceRaces.LifecycleIff` | controllers/governanceController.js:154-285 | With reads and commits apart, the lifecycle is kept (votes only while ACTIVE, one close by the tallies of the moment, one execution after the timelock) if and only if every commit found its row as its decision supposed or already saying what it wrote. |
| `GovernanceRaces.CurrentExecutedRightly` | controllers/governanceController.js:199-285 | Where every commit is current, an executed proposal had majority, quorum, voters and timelock although reads and commits are apart. |
| `GovernanceRaces.TalliesMatchAnyway` | controllers/governanceController.js:154-178 | However stale the reads, tallies are the sums of the vote rows, one capped row per user and proposal. |
| `GovernanceRaces.CommitAtOnce` | controllers/governanceController.js:106-285 | A handler whose commit follows its reads at once is the handler as one step. |
| `GovernanceRaces.LateVoteIsOverridden` | controllers/governanceController.js:154-178 | A run in which a vote lands after the proposal passed and the proposal is executed against the majority. |
| `GovernanceRaces.StaleCloseReopens` | controllers/governanceController.js:237-241 | A run in which a stale finalization turns an executed proposal back into a passed one. |
| `GovernanceDesk.Desk.CreateProposal` | controllers/governanceController.js:46-82 | Succeeds exactly from a thousand AZM; appends the proposal with its deadline and empty tallies, and keeps the invariant. |
| `GovernanceDesk.Desk.FindVote` | controllers/governanceController.js:134-141 | Finds whether the user voted on the proposal. |
| `GovernanceDesk.Desk.CastVote` | controllers/governanceController.js:120-178 | Succeeds exactly when a vote may be cast; books the capped row and its tally, which still match. |
| `GovernanceDesk.Desk.FinalizeProposal` | controllers/governanceController.js:192-241 | Succeeds exactly past the deadline of an ACTIVE proposal and closes it with the verdict its tallies call for. |
| `GovernanceDesk.Desk.ExecuteProposal` | controllers/governanceController.js:262-285 | Succeeds exactly for a PASSED proposal that waited out its timelock; it then ran rightly. |
| `MediaMerge.ListingIsUnionPrefix` | controllers/chatProfileController.js:267-325 | For all tables and limits, the listing built from two truncated queries is the first `limit` rows of the stably sorted union. |
| `MediaMerge.TruncatedMerge` | controllers/chatProfileController.js:355-403 | The same for any stable sort and any date-ordered sources. |
| `MediaMerge.StableSortUnique` | controllers/chatProfileController.js:324-325 | A stable sort by date has exactly one answer. |
| `MediaMerge.SortIsStable` | controllers/chatProfileController.js:324-325 | The modelled sort is newest first and keeps the order of equal dates. |
| `MediaMerge.MergeIsStableSort` | controllers/chatProfileController.js:294-325 | Merging two sorted sources is the stable sort of their concatenation. |
| `MediaMerge.MergePrefix` | controllers/chatProfileController.js:267-325 | The first `limit` merged rows depend only on the first `limit` rows of each side. |
| `FriendCounters.SidesCountSelfTwice` | controllers/friendController.js:688-722 | The two grouped counts exceed the either-side count by exactly the self-pairs. |
| `FriendCounters.GroupCounts` | controllers/friendController.js:683-724 | A grouped map gives each friend on the page its own count, zero when absent. |
| `FriendCounters.EnrichPage` | controllers/friendController.js:674-738 | Each friend gets the sum of its four grouped counts and its trades. |
| `FriendCounters.BatchedAgreesIff` | controllers/chatProfileController.js:543-567 | Batched and direct counts agree exactly when no completed row pairs the friend with itself. |
| `FriendCounters.SelfTicketCountsTwice` | routes/storefrontRoutes.js:612-637 | One closed ticket of a user with itself: the direct metric counts it once, the batched one twice. |
| `HotelRates.Winner` | controllers/hotelMarketplaceController.js:84-93 | The row of highest priority, the earliest among equals; none only when there are no rows. |
| `HotelRates.BuildOverrideMap` | controllers/hotelMarketplaceController.js:84-93 | One pass yields for every day exactly that day's winner. |
| `HotelRates.FindNightlyRates` | controllers/hotelMarketplaceController.js:65-108 | One entry per night, as many as the day difference, each the override, weekend or base price its day calls for. |
| `HotelRates.NightRateExactly` | controllers/hotelMarketplaceController.js:84-108 | A night costs its first override for the room, without one the first for the type, without one the first at all; without any the weekend price on Saturday and Sunday if there is one, else the base price. |
| `HotelRates.WeekendExactly` | controllers/hotelMarketplaceController.js:97-98 | Days 2 and 3 of 1970 were the first Saturday and Sunday, and weeks have seven days. |
| `HotelRates.DayExactly` | controllers/hotelMarketplaceController.js:16-20 | A timestamp falls in the UTC day that contains it, before 1970 too. |
| `HotelRates.QueryExactly` | controllers/hotelMarketplaceController.js:71-82 | The query returns exactly the business's overrides of the range for the room, its type or all types. |
| `HotelRates.QueryKeepsDay` | controllers/hotelMarketplaceController.js:71-82 | Date-bounded queries that cover a day agree on it. |
| `HotelRates.TotalIsAdditive` | controllers/hotelMarketplaceController.js:260-261 | Splitting a stay at any day, each part with its own query, leaves the total unchanged. |
| `HotelRates.OneNightCostsItsRate` | controllers/hotelMarketplaceController.js:260-261 | A single night costs its rate and no night nothing, which with additivity fixes every total. |
| `HotelRates.PriceStay` | controllers/hotelMarketplaceController.js:260-265 | The reservation total is the sum over the nights, refused when empty or not positive. |

## Left out

- ConversionProofs.ConversionTotals: where some payout rounds outward the total keeps to the band up to half a base unit per conversion only; it is exact where all round inward.
- DispatchProofs.NoRefundPastDispatch: needs review commits that find neither evidence nor handoff; `DispatchSafeIff` shows that the need is exact.
- DispatchProofs.EscalationHolds: same condition.
- QuotaProofs.SlidingQuota: needs one user's conversions not to overlap and a clock that does not go back; `QuotaHoldsIff` has the exact condition without either.
- The pool check that a conversion makes before its transaction: it can only refuse, and the conditional debit decides.
- RefundDesk.Desk.ResolveReview: the method runs without interference; interleaved review phases are covered by the ticket steps of `Refunds`.
- Floating point: the code multiplies AZM amount and rate, and parses amounts, as JavaScript numbers; the model uses one exact rounded amount for every leg.
- The webhook's raw amount text: the parser is not part of this model, only whether the amount is an exact six-decimal quantity.
- Trimming and upper-casing of role and action strings, and catalog permissions that approval actions never consult.
- How `completeTrade` computes fees: any non-negative split is allowed, the remainder going to fee revenue.
- Internals of `ledgerService`, `finance.service`, `withdrawalBridgeService`, the idempotency middleware and the payout workers; workers may claim any unclaimed match with a reference for a live withdrawal (workers/payoutBatchWorker.js:144-235, workers/withdrawalReconciliationWorker.js:115-235), write provider evidence only for a bridged withdrawal past PENDING and APPROVED and follow the status moves of workers/payoutBatchWorker.js:430-450 and workers/withdrawalReconciliationWorker.js:548-620.
- Approval quorums of bans and vendor tier changes are subject to the same invariants, but whether their amount tiers can ever be met is not studied.
- Canonical rows without a reference: the gate refuses them while review skips its canonical checks; the two decisions are compared only where a reference exists.
- A negative page limit of the listings.
- The order in which the database returns overrides of one day is taken to be the same in every query.
- Room availability, capacity and the reservation itself; HTTP, sockets, notifications, email, audit text; authentication and signatures.
- Cross-border Susu payouts, credit scores, analytics, dashboards, gifts, loyalty, group chat, orders and products, which would add only easy members.
