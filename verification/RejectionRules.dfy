/**
 The rules of rejection and review, stated without their code: who owns a payout, when the
 rejection gate and the review let one pass, what each decision does to the tables, and what an
 escalation means for the rest of a run.
 */
module RejectionRules {
  import opened Common
  import opened Refunds
  import opened RefundProofs
  import opened DispatchProofs

  // ---------------------------------------------------------------- ownership and the gate

  predicate Observed(events: set<Event>, reference: string, provider: Provider) {
    exists e :: e in events && e.reference == reference && e.dispatchedBy == Some(provider)
  }

  lemma ProvidersExactly(db: Db, reference: string)
    ensures DispatchProviders(db, reference)
         == (if Observed(db.events, reference, Moolre) then {Moolre} else {})
            + (if Observed(db.events, reference, Mtn) then {Mtn} else {})
  {
    var providers := DispatchProviders(db, reference);
    forall p: Provider
      ensures p in providers <==> Observed(db.events, reference, p)
    {
    }
    forall p: Provider
      ensures p in providers ==> p == Moolre || p == Mtn
    {
    }
  }

  /** A recorded owner wins; without one, observed dispatches name one provider, both, or nobody. */
  lemma OwnerExactly(db: Db, row: Canonical)
    requires row.reference.Some?
    ensures var (moolre, mtn) := (Observed(db.events, row.reference.value, Moolre),
                                  Observed(db.events, row.reference.value, Mtn));
            && (PayoutOwner(db, row) == Owned <==> row.owner.Some?)
            && (PayoutOwner(db, row) == Conflicting <==> row.owner.None? && moolre && mtn)
            && (PayoutOwner(db, row) == Recovered <==> row.owner.None? && moolre != mtn)
            && (PayoutOwner(db, row) == Unknown <==> row.owner.None? && !moolre && !mtn)
  {
    ProvidersExactly(db, row.reference.value);
    var (moolre, mtn) := (Observed(db.events, row.reference.value, Moolre),
                          Observed(db.events, row.reference.value, Mtn));
    if moolre && mtn {
      assert DispatchProviders(db, row.reference.value) == {Moolre, Mtn};
    }
  }

  predicate Outbound(events: set<Event>, reference: string) {
    exists e :: e in events && e.reference == reference
  }

  /** An open exception on the withdrawal itself or on its canonical transaction. */
  predicate Questioned(anomalies: map<AnomalyKey, Phase>, w: int, reference: string) {
    exists key :: key in anomalies && (key.entity == OfWithdrawal(w) || key.entity == OfTransaction(reference))
  }

  /** Referenced, still PENDING, unowned, with no outbound evidence and no open exception on either row. */
  predicate SafeToReject(db: Db, w: int, row: Canonical) {
    && row.reference.Some? && row.status == CanonPending && row.owner.None?
    && !Outbound(db.events, row.reference.value) && !Questioned(db.anomalies, w, row.reference.value)
  }

  lemma QuestionedExactly(db: Db, w: int, reference: string)
    ensures Questioned(db.anomalies, w, reference)
       <==> HasOpenAnomaly(db, OfWithdrawal(w)) || HasOpenAnomaly(db, OfTransaction(reference))
  {
    if Questioned(db.anomalies, w, reference) {
      var key :| key in db.anomalies && (key.entity == OfWithdrawal(w) || key.entity == OfTransaction(reference));
      assert HasOpenAnomaly(db, key.entity);
    }
  }

  lemma UnobservedIsUnknown(db: Db, row: Canonical)
    requires row.reference.Some? && !Outbound(db.events, row.reference.value)
    ensures PayoutOwner(db, row) == if row.owner.Some? then Owned else Unknown
  {
    OwnerExactly(db, row);
  }

  /** Every answer of the gate, in order; it lets a rejection pass exactly when that is safe. */
  lemma GateExactly(db: Db, w: int, row: Canonical)
    ensures Gate(db, w, row) == NoReference <==> row.reference.None?
    ensures Gate(db, w, row) == Settled <==> row.reference.Some? && row.status == CanonCompleted
    ensures Gate(db, w, row) == AlreadyReversed <==> row.reference.Some? && row.status == CanonFailed
    ensures Gate(db, w, row) == NotReversible <==> row.reference.Some? && row.status == CanonFrozen
    ensures Gate(db, w, row) == DispatchEvidence <==>
              row.reference.Some? && row.status == CanonPending && Outbound(db.events, row.reference.value)
    ensures Gate(db, w, row) == OwnerKnown <==>
              && row.reference.Some? && row.status == CanonPending && !Outbound(db.events, row.reference.value)
              && row.owner.Some?
    ensures Gate(db, w, row) == OpenException <==>
              && row.reference.Some? && row.status == CanonPending && !Outbound(db.events, row.reference.value)
              && row.owner.None? && Questioned(db.anomalies, w, row.reference.value)
    ensures Gate(db, w, row) == Safe <==> SafeToReject(db, w, row)
  {
    if row.reference.Some? {
      QuestionedExactly(db, w, row.reference.value);
      assert HasOutbound(db, row.reference.value) <==> Outbound(db.events, row.reference.value);
      if !Outbound(db.events, row.reference.value) {
        UnobservedIsUnknown(db, row);
      }
    }
  }

  // ---------------------------------------------------------------- eligibility for review

  /** Parked for a reason that proves nothing was sent, in a phase that proves it too. */
  predicate ProvesParked(reason: Reason, phase: Phase) {
    && (|| reason == AmountExceedsThreshold || reason == OrphanAdoptionClaimLost
        || reason == AmbiguousTransactionReference || reason == MissingTransactionReference
        || reason == MissingRecipientPhone || reason == AuthorityHeadroomBelowThreshold
        || reason == InsufficientPoolLiquidity || reason == DisbursementDispatchFailed)
    && (phase == PreDispatch || phase == DispatchFailedProven)
  }

  predicate CleanRow(db: Db, row: Canonical) {
    row.reference.Some? ==>
      && row.status == CanonPending && row.owner.None? && !Outbound(db.events, row.reference.value)
      && (forall key :: key in db.anomalies ==> key.entity != OfTransaction(row.reference.value))
  }

  /** Open records on the withdrawal, each a proof, and a canonical row, if referenced, that shows no dispatch. */
  predicate Eligible(db: Db, w: int, row: Option<Canonical>) {
    && (exists key :: key in db.anomalies && key.entity == OfWithdrawal(w))
    && (forall key :: key in db.anomalies && key.entity == OfWithdrawal(w) ==>
          ProvesParked(key.reason, db.anomalies[key]))
    && (row.Some? ==> CleanRow(db, row.value))
  }

  lemma CleanRowExactly(db: Db, row: Canonical)
    requires row.reference.Some?
    ensures CleanRow(db, row)
       <==> && !HasOpenAnomaly(db, OfTransaction(row.reference.value)) && row.status == CanonPending
            && !HasOutbound(db, row.reference.value) && PayoutOwner(db, row) == Unknown
  {
    if !Outbound(db.events, row.reference.value) {
      UnobservedIsUnknown(db, row);
    }
  }

  /** Review may move a payout exactly when it is eligible. */
  lemma EligibleExactly(db: Db, w: int, row: Option<Canonical>)
    ensures MayMove(db, w, row) <==> Eligible(db, w, row)
  {
    if row.Some? && row.value.reference.Some? {
      CleanRowExactly(db, row.value);
    }
    assert forall key :: key in db.anomalies ==>
             (SafelyParked(key, db.anomalies[key]) <==> ProvesParked(key.reason, db.anomalies[key]));
  }

  /** The tables allowed the cleared rejection, given the row its handler saw: by the gate, or by eligibility. */
  predicate Allowed(db: Db, t: Ticket, seen: Option<Seen>)
    requires t.Cleared?
  {
    && t.canonical == (if seen.Some? then Some(seen.value.id) else None)
    && (t.review ==> Eligible(db, t.w, if seen.Some? then Some(seen.value.row) else None))
    && (!t.review && seen.Some? ==> SafeToReject(db, t.w, seen.value.row))
  }

  lemma ClearChecks(s: System, step: Step) returns (seen: Option<Seen>)
    requires |Next(s, step).tickets| > |s.tickets| && Next(s, step).tickets[|s.tickets|].Cleared?
    ensures Allowed(s.db, Next(s, step).tickets[|s.tickets|], seen)
  {
    assert step.Clear? && step.k < |s.tickets|;
    var t := s.tickets[step.k];
    seen := t.seen;
    EligibleExactly(s.db, t.w, if seen.Some? then Some(seen.value.row) else None);
    if seen.Some? {
      GateExactly(s.db, t.w, seen.value.row);
    }
  }

  lemma TicketsGrow(s: System, step: Step)
    ensures s.tickets <= Next(s, step).tickets && |Next(s, step).tickets| <= |s.tickets| + 1
  {
  }

  /** Every rejection under way was cleared on a state that allowed it, however long ago. */
  lemma {:induction false} ClearedWasChecked(steps: seq<Step>, k: nat) returns (n: nat, seen: Option<Seen>)
    requires k < |Run(INITIAL, steps).tickets| && Run(INITIAL, steps).tickets[k].Cleared?
    ensures n < |steps| && Allowed(Run(INITIAL, steps[..n]).db, Run(INITIAL, steps).tickets[k], seen)
  {
    var (prefix, step) := (steps[..|steps| - 1], steps[|steps| - 1]);
    var s := Run(INITIAL, prefix);
    assert Run(INITIAL, steps) == Next(s, step);
    TicketsGrow(s, step);
    if k < |s.tickets| {
      assert Next(s, step).tickets[k] == s.tickets[k];
      n, seen := ClearedWasChecked(prefix, k);
      assert prefix[..n] == steps[..n];
    } else {
      n := |prefix|;
      seen := ClearChecks(s, step);
      assert steps[..n] == prefix;
    }
  }

  // ---------------------------------------------------------------- finding the canonical row

  predicate BridgedTo(db: Db, c: int) {
    exists v :: v in db.mirrors && db.mirrors[v].bridge == Some(c)
  }

  /** The one row of the page that no withdrawal is bridged to. */
  predicate SoleOrphan(db: Db, page: set<int>, c: int) {
    c in page && !BridgedTo(db, c) && forall d :: d in page && d != c ==> BridgedTo(db, d)
  }

  lemma LinkedExactly(db: Db, c: int)
    ensures c in Linked(db) <==> BridgedTo(db, c)
  {
    if BridgedTo(db, c) {
      var v :| v in db.mirrors && db.mirrors[v].bridge == Some(c);
      assert db.mirrors[v].bridge.value == c;
    }
  }

  lemma SoleOrphanExactly(db: Db, page: set<int>, c: int)
    ensures SoleOrphan(db, page, c) <==> page - Linked(db) == {c}
  {
    forall d
      ensures d in Linked(db) <==> BridgedTo(db, d)
    {
      LinkedExactly(db, d);
    }
    if SoleOrphan(db, page, c) {
      assert forall d :: d in page - Linked(db) <==> d == c;
      assert page - Linked(db) == {c};
    }
    if page - Linked(db) == {c} {
      assert c in page - Linked(db);
      forall d | d in page && d != c
        ensures BridgedTo(db, d)
      {
        assert d !in page - Linked(db);
      }
    }
  }

  /** An own bridge is the answer; an own obligation means none; else a sole orphan, a true match, is adopted. */
  lemma ResolveExactly(db: Db, w: int, page: set<int>)
    requires DbOk(db) && w in db.mirrors && IsPage(db, db.mirrors[w], page)
    ensures var (db', canonical) := ResolveNow(db, w, page);
            var free := db.mirrors[w].bridge.None? && w !in db.obligations;
            && (db.mirrors[w].bridge.Some? ==> canonical == db.mirrors[w].bridge)
            && (!free ==> db' == db)
            && (free ==> forall c :: canonical == Some(c) <==> SoleOrphan(db, page, c))
            && (free && canonical.Some? ==> canonical.value in db.canonicals
                                            && SamePayout(db.mirrors[w], db.canonicals[canonical.value]))
            && (canonical.None? ==> db' == db)
            && db' == db.(mirrors := db.mirrors[w := db.mirrors[w].(bridge := canonical)])
  {
    assert db.mirrors[w := db.mirrors[w]] == db.mirrors;
    assert db.mirrors[w].(bridge := db.mirrors[w].bridge) == db.mirrors[w];
    forall c
      ensures SoleOrphan(db, page, c) <==> page - Linked(db) == {c}
    {
      SoleOrphanExactly(db, page, c);
    }
    var orphans := page - Linked(db);
    if exists c :: c in orphans && orphans == {c} {
      var c :| c in orphans && orphans == {c};
      assert forall d :: orphans == {d} ==> d == c by {
        assert c in orphans;
      }
    } else {
      assert forall c :: orphans == {c} ==> c in orphans;
    }
  }

  /** A claim wins a row nobody holds, or the one already held, and then sets just this bridge. */
  lemma ClaimExactly(db: Db, w: int, c: int)
    requires w in db.mirrors
    ensures ClaimWins(db, w, c) <==>
              db.mirrors[w].bridge == Some(c) || (db.mirrors[w].bridge.None? && !BridgedTo(db, c))
    ensures Claim(db, w, c)
         == if ClaimWins(db, w, c) then db.(mirrors := db.mirrors[w := db.mirrors[w].(bridge := Some(c))]) else db
  {
    LinkedExactly(db, c);
  }

  /** Up to ten matches are all seen; more never. */
  lemma PageExactly(db: Db, mirror: Mirror, page: set<int>)
    requires IsPage(db, mirror, page)
    ensures |page| <= 10
    ensures forall c :: c in page ==> c in db.canonicals && SamePayout(mirror, db.canonicals[c])
    ensures |Matches(db, mirror)| <= 10 ==>
              forall c :: c in db.canonicals && SamePayout(mirror, db.canonicals[c]) ==> c in page
  {
    if |Matches(db, mirror)| <= 10 {
      SameSize(page, Matches(db, mirror));
    }
  }

  lemma SameSize(a: set<int>, b: set<int>)
    requires a <= b && |a| == |b|
    ensures a == b
  {
    assert |b - a| == |b| - |a|;
  }

  // ---------------------------------------------------------------- what the commits do

  /** Where a rejection may still land: PENDING or APPROVED rows, or parked ones for a review. */
  predicate StillOpen(status: MirrorStatus, review: bool) {
    (review && status == NeedsReview) || (!review && (status == Pending || status == Approved))
  }

  /** A rejection lands exactly on an open row whose canonical, if it acts on one, is PENDING with a reference. */
  lemma RejectExactly(db: Db, w: int, review: bool, canonical: Option<int>)
    ensures CommitReject(db, w, review, canonical).Ok?
       <==> && w in db.mirrors && StillOpen(db.mirrors[w].status, review)
            && (canonical.Some? ==> canonical.value in db.canonicals && Reversible(db.canonicals[canonical.value]))
  {
  }

  function RowAt(db: Db, bridge: Option<int>): Option<Canonical> {
    if bridge.Some? && bridge.value in db.canonicals then Some(db.canonicals[bridge.value]) else None
  }

  /** Only this withdrawal changed, by its bridge and its status. */
  predicate OnlyMirrorMoved(db: Db, db': Db, w: int, status: MirrorStatus) {
    && w in db.mirrors && w in db'.mirrors
    && db'.mirrors == db.mirrors[w := db.mirrors[w].(bridge := db'.mirrors[w].bridge, status := status)]
    && db'.canonicals == db.canonicals && db'.refunds == db.refunds && db'.obligations == db.obligations
    && db'.events == db.events
  }

  /** The handoff to reconciliation. */
  function Handoff(w: int): AnomalyKey {
    AnomalyKey(OfWithdrawal(w), EscalatedToReconciliation)
  }

  /** The withdrawal is REJECTED and one refund made: of its bridged row with fee, or of the withdrawal alone. */
  predicate RefundedOn(db: Db, db': Db, w: int, bridge: Option<int>) {
    && w in db.mirrors && db'.mirrors == db.mirrors[w := db.mirrors[w].(bridge := bridge, status := Rejected)]
    && if bridge.Some? && bridge.value in db.canonicals then
         var row := db.canonicals[bridge.value];
         && db'.canonicals == db.canonicals[bridge.value := row.(status := CanonFailed)]
         && db'.refunds == db.refunds + [Reversal(bridge.value, Some(w), row.amount + row.fee)]
         && db'.obligations == db.obligations
       else
         && db'.canonicals == db.canonicals && db'.obligations == db.obligations - {w}
         && db'.refunds == db.refunds + [LegacyRefund(w, db.mirrors[w].amount)]
  }

  /** What one review decision on a parked withdrawal leaves behind. */
  predicate ReviewEffect(db: Db, db': Db, w: int, decision: Decision) {
    && w in db'.mirrors
    && var row := RowAt(db, db'.mirrors[w].bridge);
    match decision
    case Escalate =>
      OnlyMirrorMoved(db, db', w, Processing) && db'.anomalies == db.anomalies[Handoff(w) := NoPhase]
    case Resume =>
      && db'.anomalies == db.anomalies
      && OnlyMirrorMoved(db, db', w, if Eligible(db, w, row) then Pending else NeedsReview)
    case RejectIt =>
      && db'.anomalies == db.anomalies
      && if Eligible(db, w, row) && (row.Some? ==> Reversible(row.value))
         then RefundedOn(db, db', w, db'.mirrors[w].bridge) else OnlyMirrorMoved(db, db', w, NeedsReview)
  }

  lemma DecideExactly(db: Db, w: int, decision: Decision)
    requires DbOk(db) && w in db.mirrors && db.mirrors[w].status == NeedsReview
    ensures ReviewEffect(db, Decide(db, w, decision, db.mirrors[w].bridge), w, decision)
  {
    var canonical := db.mirrors[w].bridge;
    var row := RowAt(db, canonical);
    EligibleExactly(db, w, row);
    RejectExactly(db, w, true, canonical);
    assert db.mirrors[w := db.mirrors[w]] == db.mirrors;
  }

  /** The effect does not depend on who set the bridge just before. */
  lemma EffectAfterAdoption(db: Db, mid: Db, db': Db, w: int, decision: Decision)
    requires w in db.mirrors && db.mirrors[w].status == NeedsReview && w in mid.mirrors
    requires mid == db.(mirrors := db.mirrors[w := db.mirrors[w].(bridge := mid.mirrors[w].bridge)])
    requires ReviewEffect(mid, db', w, decision)
    ensures ReviewEffect(db, db', w, decision)
  {
    if w in db'.mirrors {
      var row := RowAt(db, db'.mirrors[w].bridge);
      assert RowAt(mid, db'.mirrors[w].bridge) == row;
      assert Eligible(mid, w, row) <==> Eligible(db, w, row);
    }
  }

  /** Each decision on a parked withdrawal, exactly: escalation always, resumption and rejection when eligible. */
  lemma ReviewExactly(db: Db, w: int, decision: Decision, page: set<int>)
    requires DbOk(db) && w in db.mirrors && db.mirrors[w].status == NeedsReview && IsPage(db, db.mirrors[w], page)
    ensures ReviewEffect(db, ReviewNow(db, w, decision, page), w, decision)
  {
    var (mid, canonical) := ResolveNow(db, w, page);
    ResolveNowOk(db, w, page);
    ResolvedBridge(db, w, page);
    ResolveExactly(db, w, page);
    DecideExactly(mid, w, decision);
    EffectAfterAdoption(db, mid, ReviewNow(db, w, decision, page), w, decision);
  }

  // ---------------------------------------------------------------- over runs

  /** The step takes a parked withdrawal to PROCESSING. */
  predicate Escalates(s: System, step: Step, w: int) {
    && w in s.db.mirrors && s.db.mirrors[w].status == NeedsReview
    && w in Next(s, step).db.mirrors && Next(s, step).db.mirrors[w].status == Processing
  }

  lemma CommitEscalateOpens(db: Db, v: int, w: int)
    requires w in db.mirrors && db.mirrors[w].status == NeedsReview && CommitEscalate(db, v).Ok?
    requires CommitEscalate(db, v).value.mirrors[w].status == Processing
    ensures Handoff(w) in CommitEscalate(db, v).value.anomalies
  {
  }

  lemma ReviewEscalateOpens(db: Db, v: int, decision: Decision, page: set<int>, w: int)
    requires DbOk(db) && w in db.mirrors && db.mirrors[w].status == NeedsReview
    requires w in ReviewNow(db, v, decision, page).mirrors
    requires ReviewNow(db, v, decision, page).mirrors[w].status == Processing
    ensures Handoff(w) in ReviewNow(db, v, decision, page).anomalies
  {
    if v != w {
      ReviewTouchesOne(db, v, decision, page, w);
    } else if IsPage(db, db.mirrors[w], page) {
      ReviewExactly(db, w, decision, page);
    }
  }

  lemma CommitsNeverEscalate(s: System, step: Step, w: int)
    requires (step.FinishReject? || step.FinishResume? || step.ClaimOrphan?) && w in s.db.mirrors
    requires s.db.mirrors[w].status == NeedsReview && w in Next(s, step).db.mirrors
    ensures Next(s, step).db.mirrors[w].status != Processing
  {
  }

  lemma EnvironmentNeverEscalates(db: Db, step: Step, w: int)
    requires w in db.mirrors && db.mirrors[w].status == NeedsReview && w in Environment(db, step).mirrors
    ensures Environment(db, step).mirrors[w].status != Processing
  {
  }

  /** Whatever takes a parked withdrawal to PROCESSING opens its handoff in the same step. */
  lemma EscalationOpens(s: System, step: Step, w: int)
    requires Inv(s) && Escalates(s, step, w)
    ensures Handoff(w) in Next(s, step).db.anomalies
  {
    if IsRead(step) {
      ReadsKeepDb(s, step);
    } else if step.FinishEscalate? {
      CommitEscalateOpens(s.db, s.tickets[step.k].w, w);
    } else if step.FinishReject? || step.FinishResume? || step.ClaimOrphan? {
      CommitsNeverEscalate(s, step, w);
    } else if step.Review? {
      ReviewEscalateOpens(s.db, step.reviewedW, step.decision, step.reviewPage, w);
    } else {
      EnvironmentNeverEscalates(s.db, step, w);
    }
  }

  lemma DecideKeepsAnomalies(db: Db, v: int, decision: Decision, canonical: Option<int>, key: AnomalyKey)
    requires canonical.Some? ==> canonical.value in db.canonicals
    requires key in db.anomalies
    ensures key in Decide(db, v, decision, canonical).anomalies
  {
  }

  /** Open records stay open until they are closed. */
  lemma RecordStays(s: System, step: Step, key: AnomalyKey)
    requires key in s.db.anomalies && step != Close(key)
    ensures key in Next(s, step).db.anomalies
  {
    if IsRead(step) {
      ReadsKeepDb(s, step);
    } else if step.Review? {
      var (db, w, page) := (s.db, step.reviewedW, step.reviewPage);
      if w in db.mirrors && db.mirrors[w].status == NeedsReview && IsPage(db, db.mirrors[w], page) {
        var (mid, canonical) := ResolveNow(db, w, page);
        assert mid.anomalies == db.anomalies;
        DecideKeepsAnomalies(mid, w, step.decision, canonical, key);
      }
    }
  }

  lemma {:induction false} RecheckedPrefix(steps: seq<Step>, j: nat)
    requires RecheckedRun(steps) && j < |steps|
    ensures RecheckedRun(steps[..j]) && Rechecked(Run(INITIAL, steps[..j]), steps[j])
  {
    var prefix := steps[..|steps| - 1];
    if j < |prefix| {
      RecheckedPrefix(prefix, j);
      assert prefix[..j] == steps[..j];
    }
  }

  lemma {:induction false} HandoffOpenAt(steps: seq<Step>, i: nat, j: nat, w: int)
    requires i < j <= |steps| && Escalates(Run(INITIAL, steps[..i]), steps[i], w)
    requires forall k :: i < k < j ==> steps[k] != Close(Handoff(w))
    ensures Handoff(w) in Run(INITIAL, steps[..j]).db.anomalies
  {
    var last := j - 1;
    assert steps[..j][..last] == steps[..last];
    assert Run(INITIAL, steps[..j]) == Next(Run(INITIAL, steps[..last]), steps[last]);
    if last == i {
      Reachable(steps[..i]);
      EscalationOpens(Run(INITIAL, steps[..i]), steps[i], w);
    } else {
      HandoffOpenAt(steps, i, last, w);
      RecordStays(Run(INITIAL, steps[..last]), steps[last], Handoff(w));
    }
  }

  /** After an escalation, until its handoff is closed, no later step of the run refunds or resumes the withdrawal. */
  lemma {:induction false} EscalatedUntilClosed(steps: seq<Step>, i: nat, j: nat, w: int)
    requires RecheckedRun(steps) && i < j < |steps| && Escalates(Run(INITIAL, steps[..i]), steps[i], w)
    requires forall k :: i < k < j ==> steps[k] != Close(Handoff(w))
    ensures !RefundsMirror(Run(INITIAL, steps[..j]), steps[j], w) && !Resumes(Run(INITIAL, steps[..j]), steps[j], w)
  {
    HandoffOpenAt(steps, i, j, w);
    RecheckedPrefix(steps, j);
    EscalationHolds(steps[..j], steps[j], w);
  }

  // ---------------------------------------------------------------- adopted rows belong

  lemma ClaimMatches(s: System, k: nat, w: int)
    requires Inv(s) && k < |s.tickets| && w in s.db.mirrors && s.db.mirrors[w].bridge.None?
    requires ClaimTicket(s, s.tickets[k]).db.mirrors[w].bridge.Some?
    ensures var (db', c) := (ClaimTicket(s, s.tickets[k]).db, ClaimTicket(s, s.tickets[k]).db.mirrors[w].bridge.value);
            c in db'.canonicals && SamePayout(db'.mirrors[w], db'.canonicals[c])
  {
    assert TicketOk(s.db, s.tickets[k]);
  }

  lemma ReviewMatches(db: Db, v: int, decision: Decision, page: set<int>, w: int)
    requires DbOk(db) && w in db.mirrors && db.mirrors[w].bridge.None?
    requires w in ReviewNow(db, v, decision, page).mirrors && ReviewNow(db, v, decision, page).mirrors[w].bridge.Some?
    ensures var db' := ReviewNow(db, v, decision, page);
            var c := db'.mirrors[w].bridge.value;
            c in db'.canonicals && SamePayout(db'.mirrors[w], db'.canonicals[c])
  {
    if v != w {
      ReviewTouchesOne(db, v, decision, page, w);
    } else {
      var (mid, canonical) := ResolveNow(db, w, page);
      ResolveNowOk(db, w, page);
      ResolvedBridge(db, w, page);
      ResolveExactly(db, w, page);
      DecideOk(mid, w, decision, canonical);
      assert mid.mirrors[w].bridge.Some?;
    }
  }

  /** A bridge that any step of any run sets on a stored withdrawal leads to a row of its user, amount and moment. */
  lemma {:induction false} AdoptedRowsBelong(steps: seq<Step>, step: Step, w: int)
    requires var s := Run(INITIAL, steps); w in s.db.mirrors && s.db.mirrors[w].bridge.None?
    requires var s' := Next(Run(INITIAL, steps), step); w in s'.db.mirrors && s'.db.mirrors[w].bridge.Some?
    ensures var db' := Next(Run(INITIAL, steps), step).db;
            var c := db'.mirrors[w].bridge.value;
            c in db'.canonicals && SamePayout(db'.mirrors[w], db'.canonicals[c])
  {
    var s := Run(INITIAL, steps);
    Reachable(steps);
    if IsRead(step) {
      ReadsKeepDb(s, step);
    } else if step.ClaimOrphan? {
      ClaimMatches(s, step.k, w);
    } else if step.FinishReject? {
      var t := s.tickets[step.k];
      CommitsKeepBridge(s.db, t.w, t.review, t.canonical, w);
    } else if step.FinishResume? || step.FinishEscalate? {
      CommitsKeepBridge(s.db, s.tickets[step.k].w, true, None, w);
    } else if step.Review? {
      ReviewMatches(s.db, step.reviewedW, step.decision, step.reviewPage, w);
    } else {
      EnvironmentKeepsBridge(s.db, step, w);
    }
  }
}
