/**
 No refund past dispatch, and escalation as a one-way handoff. The gate's read and the
 rejection's commit may be any distance apart. A review that checks eligibility before its
 commit is safe exactly when nothing was dispatched or escalated by the time it commits.
 */
module DispatchProofs {
  import opened Common
  import opened Refunds
  import opened RefundProofs

  predicate UniqueReferences(db: Db) {
    forall c, d :: c in db.canonicals && d in db.canonicals && c != d && db.canonicals[c].reference.Some? ==>
      db.canonicals[c].reference != db.canonicals[d].reference
  }

  predicate Carries(db: Db, w: int, reference: string) {
    w in db.mirrors && db.mirrors[w].bridge.Some? && db.mirrors[w].bridge.value in db.canonicals
    && db.canonicals[db.mirrors[w].bridge.value].reference == Some(reference)
  }

  /** Outbound events exist only for payouts some withdrawal carries, and that withdrawal is past dispatch. */
  ghost predicate EventsOwned(db: Db) {
    forall e :: e in db.events ==> exists w :: Carries(db, w, e.reference)
  }

  ghost predicate EventsDispatched(db: Db) {
    forall e, w :: e in db.events && Carries(db, w, e.reference) ==> !Undispatched(db.mirrors[w].status)
  }

  ghost predicate HandoffsDispatched(db: Db) {
    forall w :: HandoffKey(w) in db.anomalies ==> w in db.mirrors && !Undispatched(db.mirrors[w].status)
  }

  ghost predicate DispatchOk(db: Db) {
    UniqueReferences(db) && EventsOwned(db) && EventsDispatched(db) && HandoffsDispatched(db)
  }

  /** Outbound evidence exists for the payout the withdrawal carries. */
  predicate Dispatched(db: Db, w: int) {
    exists e :: e in db.events && Carries(db, w, e.reference)
  }

  /** No longer an admin's to move: dispatched, or handed to reconciliation. */
  predicate OutOfReach(db: Db, w: int) {
    Dispatched(db, w) || HandoffKey(w) in db.anomalies
  }

  // ---------------------------------------------------------------- the guard

  /** A review's RESUME or REJECT, decided earlier, is about to land. */
  predicate ReviewCommitLands(s: System, step: Step) {
    (step.FinishReject? || step.FinishResume?) && step.k < |s.tickets| &&
    var t := s.tickets[step.k];
    && t.Cleared? && t.review && t.w in s.db.mirrors && s.db.mirrors[t.w].status == NeedsReview
    && (step.FinishReject? && t.canonical.Some? ==>
          t.canonical.value in s.db.canonicals && Reversible(s.db.canonicals[t.canonical.value]))
  }

  predicate Reversible(row: Canonical) {
    row.status == CanonPending && row.reference.Some?
  }

  /** A check the commit could make: a review that lands finds neither evidence nor handoff. */
  predicate Rechecked(s: System, step: Step) {
    ReviewCommitLands(s, step) ==> !OutOfReach(s.db, s.tickets[step.k].w)
  }

  predicate RecheckedRun(steps: seq<Step>) {
    steps == []
    || (RecheckedRun(steps[..|steps| - 1]) && Rechecked(Run(INITIAL, steps[..|steps| - 1]), steps[|steps| - 1]))
  }

  // ---------------------------------------------------------------- preservation, table by table

  lemma OwnedSurvives(db: Db, db': Db)
    requires EventsOwned(db) && Evolves(db, db') && db'.events == db.events
    ensures EventsOwned(db')
  {
    forall e | e in db'.events
      ensures exists w :: Carries(db', w, e.reference)
    {
      var w :| Carries(db, w, e.reference);
      var c := db.mirrors[w].bridge.value;
      assert c in db.canonicals;
      assert c in db'.canonicals;
      assert Carries(db', w, e.reference);
    }
  }

  /** A canonical with outbound events is bridged already, so no orphan has any. */
  lemma EventsMeanLinked(db: Db, e: Event, c: int)
    requires UniqueReferences(db) && EventsOwned(db)
    requires e in db.events && c in db.canonicals && db.canonicals[c].reference == Some(e.reference)
    ensures c in Linked(db)
  {
    var owner :| Carries(db, owner, e.reference);
    assert db.mirrors[owner].bridge.value == c;
  }

  /** Moving a withdrawal is harmless unless it leads back to an undispatched status. */
  lemma StatusOk(db: Db, w: int, status: MirrorStatus)
    requires DispatchOk(db) && w in db.mirrors
    requires Undispatched(status) ==>
               || Undispatched(db.mirrors[w].status)
               || (HandoffKey(w) !in db.anomalies
                   && forall e :: e in db.events ==> !Carries(db, w, e.reference))
    ensures DispatchOk(SetStatus(db, w, status))
  {
    var db' := SetStatus(db, w, status);
    assert forall v, r :: Carries(db', v, r) <==> Carries(db, v, r);
    forall e | e in db'.events
      ensures exists v :: Carries(db', v, e.reference)
    {
      var v :| Carries(db, v, e.reference);
      assert Carries(db', v, e.reference);
    }
  }

  lemma ClaimDispatchOk(db: Db, w: int, c: int)
    requires DispatchOk(db) && DbOk(db) && w in db.mirrors && c in db.canonicals
    ensures DispatchOk(Claim(db, w, c))
  {
    var db' := Claim(db, w, c);
    if db' != db {
      ClaimOk(db, w, c);
      OwnedSurvives(db, db');
      forall e, v | e in db'.events && Carries(db', v, e.reference)
        ensures !Undispatched(db'.mirrors[v].status)
      {
        if v == w && db.mirrors[w].bridge.None? {
          EventsMeanLinked(db, e, c);
        } else {
          assert Carries(db, v, e.reference);
        }
      }
    }
  }

  lemma CanonicalStatusOk(db: Db, c: int, row: Canonical)
    requires DispatchOk(db) && c in db.canonicals && row.reference == db.canonicals[c].reference
    ensures DispatchOk(db.(canonicals := db.canonicals[c := row]))
  {
    var db' := db.(canonicals := db.canonicals[c := row]);
    assert forall v, r :: Carries(db', v, r) <==> Carries(db, v, r);
    forall e | e in db'.events
      ensures exists v :: Carries(db', v, e.reference)
    {
      var v :| Carries(db, v, e.reference);
      assert Carries(db', v, e.reference);
    }
  }

  lemma EventOk(db: Db, c: int, dispatcher: Option<Provider>)
    requires DispatchOk(db) && BridgeOk(db)
    ensures DispatchOk(Environment(db, WriteEvent(c, dispatcher)))
  {
    var db' := Environment(db, WriteEvent(c, dispatcher));
    if db' != db {
      var reference := db.canonicals[c].reference.value;
      var w :| w in db.mirrors && db.mirrors[w].bridge == Some(c) && !Undispatched(db.mirrors[w].status);
      assert Carries(db, w, reference);
      assert forall v, r :: Carries(db', v, r) <==> Carries(db, v, r);
      forall e | e in db'.events
        ensures exists v :: Carries(db', v, e.reference)
      {
        if e in db.events {
          var v :| Carries(db, v, e.reference);
          assert Carries(db', v, e.reference);
        } else {
          assert Carries(db', w, e.reference);
        }
      }
      forall v | Carries(db, v, reference)
        ensures v == w
      {
        assert db.mirrors[v].bridge.value == c;
      }
    }
  }

  /** Added rows carry no old reference: with evidence out, the carriers are the ones there were. */
  lemma NoNewCarrier(db: Db, step: Step, e: Event, v: int)
    requires EventsOwned(db) && e in db.events && (step.NewMirror? || step.NewCanonical?)
    requires BridgeOk(db) && Carries(Environment(db, step), v, e.reference)
    ensures Carries(db, v, e.reference) && Environment(db, step).mirrors[v] == db.mirrors[v]
  {
    var db' := Environment(db, step);
    var owner :| Carries(db, owner, e.reference);
    var d := db.mirrors[owner].bridge.value;
    assert d in db.canonicals && db.canonicals[d].reference == Some(e.reference);
    var c := db'.mirrors[v].bridge.value;
    assert c in db'.canonicals && db'.canonicals[c].reference == Some(e.reference);
    assert c in db.canonicals;
  }

  lemma NewRowOk(db: Db, step: Step)
    requires DispatchOk(db) && DbOk(db) && (step.NewMirror? || step.NewCanonical?)
    ensures DispatchOk(Environment(db, step))
  {
    var db' := Environment(db, step);
    EnvironmentOk(db, step);
    OwnedSurvives(db, db');
    forall e, v | e in db'.events && Carries(db', v, e.reference)
      ensures !Undispatched(db'.mirrors[v].status)
    {
      NoNewCarrier(db, step, e, v);
    }
    assert UniqueReferences(db');
    assert HandoffsDispatched(db');
  }

  lemma EnvironmentDispatchOk(db: Db, step: Step)
    requires DispatchOk(db) && DbOk(db)
    ensures DispatchOk(Environment(db, step))
  {
    if step.NewMirror? || step.NewCanonical? {
      NewRowOk(db, step);
    } else if step.Move? {
      if step.moved in db.mirrors && LegalMove(db.mirrors[step.moved].status, step.to) {
        StatusOk(db, step.moved, step.to);
      }
    } else if step.WriteEvent? {
      EventOk(db, step.eventC, step.dispatchedBy);
    } else if step.WriteOwner? {
      if step.ownedC in db.canonicals {
        CanonicalStatusOk(db, step.ownedC, db.canonicals[step.ownedC].(owner := Some(step.owner)));
      }
    } else if step.Settle? {
      if step.settledC in db.canonicals {
        CanonicalStatusOk(db, step.settledC, db.canonicals[step.settledC].(status := step.outcome));
      }
    } else if step.ProviderFailed? {
      ReverseDispatchOk(db, step.failedC, None);
    } else {
      SameRowsOk(db, Environment(db, step));
    }
  }

  /** Only rows and events matter, and closing a handoff can only help. */
  lemma SameRowsOk(db: Db, db': Db)
    requires DispatchOk(db)
    requires db'.mirrors == db.mirrors && db'.canonicals == db.canonicals && db'.events == db.events
    requires forall w :: HandoffKey(w) in db'.anomalies ==> HandoffKey(w) in db.anomalies
    ensures DispatchOk(db')
  {
    assert forall v, r :: Carries(db', v, r) <==> Carries(db, v, r);
    forall e | e in db'.events
      ensures exists v :: Carries(db', v, e.reference)
    {
      var v :| Carries(db, v, e.reference);
      assert Carries(db', v, e.reference);
    }
  }

  lemma ReverseDispatchOk(db: Db, c: int, rejected: Option<int>)
    requires DispatchOk(db)
    ensures var r := Reverse(db, c, rejected); r.Ok? ==> DispatchOk(r.value)
  {
    var r := Reverse(db, c, rejected);
    if r.Ok? {
      var mid := db.(canonicals := r.value.canonicals);
      CanonicalStatusOk(db, c, r.value.canonicals[c]);
      SameRowsOk(mid, r.value);
    }
  }

  lemma RejectDispatchOk(db: Db, w: int, review: bool, canonical: Option<int>)
    requires DispatchOk(db)
    ensures var r := CommitReject(db, w, review, canonical); r.Ok? ==> DispatchOk(r.value)
  {
    var r := CommitReject(db, w, review, canonical);
    if r.Ok? {
      StatusOk(db, w, Rejected);
      if canonical.Some? {
        ReverseDispatchOk(SetStatus(db, w, Rejected), canonical.value, Some(w));
      } else {
        SameRowsOk(SetStatus(db, w, Rejected), r.value);
      }
    }
  }

  lemma EscalateDispatchOk(db: Db, w: int)
    requires DispatchOk(db)
    ensures var r := CommitEscalate(db, w); r.Ok? ==> DispatchOk(r.value)
  {
    var r := CommitEscalate(db, w);
    if r.Ok? {
      var claimed := SetStatus(db, w, Processing);
      StatusOk(db, w, Processing);
      assert forall v, ref :: Carries(r.value, v, ref) <==> Carries(claimed, v, ref);
      OwnedByRows(claimed, r.value);
      assert forall v :: HandoffKey(v) in r.value.anomalies ==> v == w || HandoffKey(v) in claimed.anomalies;
    }
  }

  lemma OwnedByRows(db: Db, db': Db)
    requires EventsOwned(db) && db'.mirrors == db.mirrors && db'.canonicals == db.canonicals && db'.events == db.events
    ensures EventsOwned(db')
  {
    forall e | e in db'.events
      ensures exists v :: Carries(db', v, e.reference)
    {
      var v :| Carries(db, v, e.reference);
      assert Carries(db', v, e.reference);
    }
  }

  /** A review that may move the row has proved there is neither dispatch evidence nor a handoff for it. */
  lemma MayMoveProves(db: Db, w: int, canonical: Option<int>)
    requires DbOk(db) && w in db.mirrors && db.mirrors[w].bridge == canonical
    requires MayMove(db, w, if canonical.Some? then Some(db.canonicals[canonical.value]) else None)
    ensures HandoffKey(w) !in db.anomalies
    ensures forall e :: e in db.events ==> !Carries(db, w, e.reference)
  {
    assert HandoffKey(w).entity == OfWithdrawal(w) && HandoffKey(w).reason !in SAFE_PARKING;
  }

  lemma DecideDispatchOk(db: Db, w: int, decision: Decision, canonical: Option<int>)
    requires DispatchOk(db) && DbOk(db) && w in db.mirrors && db.mirrors[w].bridge == canonical
    ensures DispatchOk(Decide(db, w, decision, canonical))
  {
    match decision
    case Escalate => EscalateDispatchOk(db, w);
    case RejectIt => RejectDispatchOk(db, w, true, canonical);
    case Resume =>
      if Decide(db, w, decision, canonical) != db {
        MayMoveProves(db, w, canonical);
        StatusOk(db, w, Pending);
      }
  }

  lemma ReviewDispatchOk(db: Db, w: int, decision: Decision, page: set<int>)
    requires DispatchOk(db) && DbOk(db)
    ensures DispatchOk(ReviewNow(db, w, decision, page))
  {
    if w in db.mirrors && db.mirrors[w].status == NeedsReview && IsPage(db, db.mirrors[w], page) {
      var (resolved, canonical) := ResolveNow(db, w, page);
      ResolveNowOk(db, w, page);
      ResolvedBridge(db, w, page);
      match ResolveRead(db, w, page)
      case Adopt(c) => ClaimDispatchOk(db, w, c); DecideDispatchOk(resolved, w, decision, canonical);
      case _ => DecideDispatchOk(resolved, w, decision, canonical);
    }
  }

  lemma ResumeDispatchOk(db: Db, w: int)
    requires DispatchOk(db) && w in db.mirrors && !OutOfReach(db, w)
    ensures var r := CommitResume(db, w); r.Ok? ==> DispatchOk(r.value)
  {
    if CommitResume(db, w).Ok? {
      assert forall e :: e in db.events ==> !Carries(db, w, e.reference);
      StatusOk(db, w, Pending);
    }
  }

  lemma ClaimStepOk(s: System, step: Step)
    requires Inv(s) && DispatchOk(s.db) && step.ClaimOrphan?
    ensures DispatchOk(Next(s, step).db)
  {
    if step.k < |s.tickets| && s.tickets[step.k].Claiming? {
      assert TicketOk(s.db, s.tickets[step.k]);
      ClaimDispatchOk(s.db, s.tickets[step.k].w, s.tickets[step.k].orphan.id);
    }
  }

  lemma ResumeStepOk(s: System, step: Step)
    requires Inv(s) && DispatchOk(s.db) && Rechecked(s, step) && step.FinishResume?
    ensures DispatchOk(Next(s, step).db)
  {
    if ReviewCommitLands(s, step) {
      ResumeDispatchOk(s.db, s.tickets[step.k].w);
    }
  }

  lemma RejectStepOk(s: System, step: Step)
    requires DispatchOk(s.db) && step.FinishReject?
    ensures DispatchOk(Next(s, step).db)
  {
    if step.k < |s.tickets| && s.tickets[step.k].Cleared? {
      RejectDispatchOk(s.db, s.tickets[step.k].w, s.tickets[step.k].review, s.tickets[step.k].canonical);
    }
  }

  lemma EscalateStepOk(s: System, step: Step)
    requires DispatchOk(s.db) && step.FinishEscalate?
    ensures DispatchOk(Next(s, step).db)
  {
    if step.k < |s.tickets| {
      EscalateDispatchOk(s.db, s.tickets[step.k].w);
    }
  }

  lemma NextKeepsDispatch(s: System, step: Step)
    requires Inv(s) && DispatchOk(s.db) && Rechecked(s, step)
    ensures DispatchOk(Next(s, step).db)
  {
    if IsRead(step) {
      ReadsKeepDb(s, step);
    } else if step.ClaimOrphan? {
      ClaimStepOk(s, step);
    } else if step.FinishReject? {
      RejectStepOk(s, step);
    } else if step.FinishResume? {
      ResumeStepOk(s, step);
    } else if step.FinishEscalate? {
      EscalateStepOk(s, step);
    } else if step.Review? {
      ReviewDispatchOk(s.db, step.reviewedW, step.decision, step.reviewPage);
    } else {
      EnvironmentDispatchOk(s.db, step);
    }
  }

  lemma {:induction false} RunKeepsDispatch(steps: seq<Step>)
    requires RecheckedRun(steps)
    ensures Inv(Run(INITIAL, steps)) && DispatchOk(Run(INITIAL, steps).db)
  {
    Reachable(steps);
    if steps != [] {
      RunKeepsDispatch(steps[..|steps| - 1]);
      NextKeepsDispatch(Run(INITIAL, steps[..|steps| - 1]), steps[|steps| - 1]);
    }
  }

  // ---------------------------------------------------------------- what refunds and resumes

  /** A step that refunds a withdrawal by rejecting it. */
  ghost predicate RefundsMirror(s: System, step: Step, w: int) {
    RejectionsOf(Next(s, step).db.refunds, w) > RejectionsOf(s.db.refunds, w)
  }

  predicate Resumes(s: System, step: Step, w: int) {
    w in s.db.mirrors && s.db.mirrors[w].status == NeedsReview
    && w in Next(s, step).db.mirrors && Next(s, step).db.mirrors[w].status == Pending
  }

  lemma RefundsIffRejected(s: System, step: Step, w: int)
    requires Inv(s) && w in s.db.mirrors
    ensures w in Next(s, step).db.mirrors
    ensures RefundsMirror(s, step, w)
       <==> s.db.mirrors[w].status != Rejected && Next(s, step).db.mirrors[w].status == Rejected
  {
    NextDbOk(s, step);
  }

  /** A review's rejection refunds exactly when the row is still parked and its canonical, if seen, still reversible. */
  lemma ReviewRejectExactly(s: System, k: nat)
    requires Inv(s) && k < |s.tickets| && s.tickets[k].Cleared? && s.tickets[k].review
    ensures RefundsMirror(s, FinishReject(k), s.tickets[k].w) <==> ReviewCommitLands(s, FinishReject(k))
  {
    var t := s.tickets[k];
    assert TicketOk(s.db, t);
    RefundsIffRejected(s, FinishReject(k), t.w);
  }

  /** A review's RESUME lands exactly when the row is still parked. */
  lemma ReviewResumeExactly(s: System, k: nat)
    requires Inv(s) && k < |s.tickets| && s.tickets[k].Cleared? && s.tickets[k].review
    ensures Resumes(s, FinishResume(k), s.tickets[k].w) <==> ReviewCommitLands(s, FinishResume(k))
  {
    assert TicketOk(s.db, s.tickets[k]);
  }

  /** Whatever one review decision refunds or resumes was free of dispatch evidence and handoffs when it did so. */
  lemma ReviewedWasClear(db: Db, w: int, decision: Decision, page: set<int>)
    requires DbOk(db) && w in db.mirrors && db.mirrors[w].status == NeedsReview && IsPage(db, db.mirrors[w], page)
    requires ReviewNow(db, w, decision, page).mirrors[w].status == Rejected
          || ReviewNow(db, w, decision, page).mirrors[w].status == Pending
    ensures !OutOfReach(db, w)
  {
    var (resolved, canonical) := ResolveNow(db, w, page);
    ResolveNowOk(db, w, page);
    ResolvedBridge(db, w, page);
    MayMoveProves(resolved, w, canonical);
    forall e | e in db.events
      ensures !Carries(db, w, e.reference)
    {
      assert Carries(db, w, e.reference) ==> Carries(resolved, w, e.reference);
    }
  }

  lemma EnvironmentNeverRejects(db: Db, step: Step, w: int)
    requires w in db.mirrors
    ensures var db' := Environment(db, step);
            && w in db'.mirrors
            && (db'.mirrors[w].status == Rejected ==> db.mirrors[w].status == Rejected)
            && (db'.mirrors[w].status == Pending ==> db.mirrors[w].status == Pending)
  {
  }

  lemma OthersNeverReject(s: System, step: Step, w: int)
    requires w in s.db.mirrors && !step.Review? && !step.FinishReject? && !step.FinishResume?
    ensures w in Next(s, step).db.mirrors
    ensures Next(s, step).db.mirrors[w].status == Rejected ==> s.db.mirrors[w].status == Rejected
    ensures !Resumes(s, step, w)
  {
    if IsRead(step) {
      ReadsKeepDb(s, step);
    } else if !step.ClaimOrphan? && !step.FinishEscalate? {
      EnvironmentNeverRejects(s.db, step, w);
      assert Next(s, step).db == Environment(s.db, step);
    }
  }

  /** Rejections and resumptions touch their own ticket's withdrawal only. */
  lemma CommitTouchesOne(s: System, step: Step, w: int)
    requires (step.FinishReject? || step.FinishResume?) && w in s.db.mirrors
    requires step.k < |s.tickets| && s.tickets[step.k].Cleared? && s.tickets[step.k].w != w
    ensures w in Next(s, step).db.mirrors && Next(s, step).db.mirrors[w] == s.db.mirrors[w]
  {
  }

  /** Moved: rejected or resumed by the step. */
  predicate Moves(s: System, step: Step, w: int) {
    && w in s.db.mirrors && w in Next(s, step).db.mirrors
    && ((s.db.mirrors[w].status != Rejected && Next(s, step).db.mirrors[w].status == Rejected) || Resumes(s, step, w))
  }

  lemma CommitMovedClear(s: System, step: Step, w: int)
    requires DispatchOk(s.db) && Rechecked(s, step) && (step.FinishReject? || step.FinishResume?)
    requires Moves(s, step, w)
    ensures !OutOfReach(s.db, w)
  {
    var t := s.tickets[step.k];
    if t.w != w {
      CommitTouchesOne(s, step, w);
    } else if !t.review {
      assert Undispatched(s.db.mirrors[w].status);
    }
  }

  lemma {:induction false} MovedWasClear(s: System, step: Step, w: int)
    requires Inv(s) && DispatchOk(s.db) && Rechecked(s, step) && Moves(s, step, w)
    ensures !OutOfReach(s.db, w)
  {
    if step.Review? {
      if step.reviewedW != w {
        ReviewTouchesOne(s.db, step.reviewedW, step.decision, step.reviewPage, w);
      } else {
        ReviewedWasClear(s.db, w, step.decision, step.reviewPage);
      }
    } else if step.FinishReject? || step.FinishResume? {
      CommitMovedClear(s, step, w);
    } else {
      OthersNeverReject(s, step, w);
    }
  }

  // ---------------------------------------------------------------- the theorems

  /** The step refunds or resumes a payout that is out of reach. */
  ghost predicate Violates(s: System, step: Step) {
    exists w :: OutOfReach(s.db, w) && (RefundsMirror(s, step, w) || Resumes(s, step, w))
  }

  ghost predicate ViolationFree(steps: seq<Step>) {
    steps == []
    || (ViolationFree(steps[..|steps| - 1]) && !Violates(Run(INITIAL, steps[..|steps| - 1]), steps[|steps| - 1]))
  }

  lemma OutOfReachExists(db: Db, w: int)
    requires DispatchOk(db) && OutOfReach(db, w)
    ensures w in db.mirrors
  {
  }

  lemma {:induction false} RecheckedRespects(s: System, step: Step, w: int)
    requires Inv(s) && DispatchOk(s.db) && Rechecked(s, step) && OutOfReach(s.db, w)
    ensures !RefundsMirror(s, step, w) && !Resumes(s, step, w)
  {
    OutOfReachExists(s.db, w);
    RefundsIffRejected(s, step, w);
    if Moves(s, step, w) {
      MovedWasClear(s, step, w);
    }
  }

  lemma {:induction false} StepViolatesIff(s: System, step: Step)
    requires Inv(s) && DispatchOk(s.db)
    ensures Violates(s, step) <==> !Rechecked(s, step)
  {
    if Rechecked(s, step) {
      forall w | OutOfReach(s.db, w)
        ensures !RefundsMirror(s, step, w) && !Resumes(s, step, w)
      {
        RecheckedRespects(s, step, w);
      }
    } else if step.FinishReject? {
      ReviewRejectExactly(s, step.k);
    } else {
      ReviewResumeExactly(s, step.k);
    }
  }

  /**
   A run never refunds or resumes a payout that was dispatched or escalated if and only if
   every review that landed found neither evidence nor handoff at its commit. Nothing is
   asked of `rejectWithdrawal`, whose gate may have read arbitrarily long before.
   */
  lemma {:induction false} DispatchSafeIff(steps: seq<Step>)
    ensures ViolationFree(steps) <==> RecheckedRun(steps)
  {
    if steps != [] {
      var prefix := steps[..|steps| - 1];
      DispatchSafeIff(prefix);
      if RecheckedRun(prefix) {
        RunKeepsDispatch(prefix);
        StepViolatesIff(Run(INITIAL, prefix), steps[|steps| - 1]);
      }
    }
  }

  /** With outbound evidence on its canonical, no step of any handler refunds the withdrawal. */
  lemma {:induction false} NoRefundPastDispatch(steps: seq<Step>, step: Step, w: int, e: Event)
    requires RecheckedRun(steps) && Rechecked(Run(INITIAL, steps), step)
    requires e in Run(INITIAL, steps).db.events && Carries(Run(INITIAL, steps).db, w, e.reference)
    ensures !RefundsMirror(Run(INITIAL, steps), step, w)
  {
    RunKeepsDispatch(steps);
    RecheckedRespects(Run(INITIAL, steps), step, w);
  }

  /** After ESCALATE, while the handoff is open, no RESUME, review REJECT or rejection succeeds. */
  lemma {:induction false} EscalationHolds(steps: seq<Step>, step: Step, w: int)
    requires RecheckedRun(steps) && Rechecked(Run(INITIAL, steps), step)
    requires HandoffKey(w) in Run(INITIAL, steps).db.anomalies
    ensures !RefundsMirror(Run(INITIAL, steps), step, w) && !Resumes(Run(INITIAL, steps), step, w)
  {
    RunKeepsDispatch(steps);
    RecheckedRespects(Run(INITIAL, steps), step, w);
  }

  // ---------------------------------------------------------------- two ways to meet the guard

  function BridgedRow(db: Db, w: int): Option<Canonical>
    requires w in db.mirrors
  {
    var bridge := db.mirrors[w].bridge;
    if bridge.Some? && bridge.value in db.canonicals then Some(db.canonicals[bridge.value]) else None
  }

  /** Deciding eligibility inside the commit meets the guard. */
  lemma EligibilityRechecks(s: System, step: Step)
    requires Inv(s)
    requires ReviewCommitLands(s, step) ==>
               MayMove(s.db, s.tickets[step.k].w, BridgedRow(s.db, s.tickets[step.k].w))
    ensures Rechecked(s, step)
  {
    if ReviewCommitLands(s, step) {
      var w := s.tickets[step.k].w;
      MayMoveProves(s.db, w, s.db.mirrors[w].bridge);
    }
  }

  /** Review decisions are taken in one step: no review handler is split into reads and a later commit. */
  predicate WholeReviews(steps: seq<Step>) {
    forall i :: 0 <= i < |steps| ==> WholeReview(steps[i])
  }

  predicate WholeReview(step: Step) {
    step.Open? ==> !step.forReview
  }

  predicate OnlyRejections(s: System) {
    forall k :: 0 <= k < |s.tickets| ==> !s.tickets[k].review
  }

  lemma TicketsStayRejections(s: System, step: Step)
    requires OnlyRejections(s) && WholeReview(step)
    ensures OnlyRejections(Next(s, step))
  {
  }

  /** So does taking each review decision in one step. */
  lemma {:induction false} WholeReviewsAreRechecked(steps: seq<Step>)
    requires WholeReviews(steps)
    ensures RecheckedRun(steps) && OnlyRejections(Run(INITIAL, steps))
  {
    if steps != [] {
      WholeReviewsAreRechecked(steps[..|steps| - 1]);
      assert WholeReview(steps[|steps| - 1]);
      TicketsStayRejections(Run(INITIAL, steps[..|steps| - 1]), steps[|steps| - 1]);
    }
  }

  // ---------------------------------------------------------------- the two safety decisions compared

  /** On one state, a payout that review may move passes every check of the gate except the parking record itself. */
  lemma ReviewImpliesGateChecks(db: Db, w: int, row: Canonical)
    requires row.reference.Some? && MayMove(db, w, Some(row))
    ensures Gate(db, w, row) == OpenException
  {
    var key :| key in db.anomalies && key.entity == OfWithdrawal(w) && SafelyParked(key, db.anomalies[key]);
    assert HasOpenAnomaly(db, OfWithdrawal(w));
  }

  /** Dispatch observations are outbound evidence, so an ownership conflict never gets to decide the gate. */
  lemma ConflictIsShadowed(db: Db, w: int, row: Canonical)
    ensures Gate(db, w, row) != OwnershipConflict
  {
    if row.reference.Some? && !HasOutbound(db, row.reference.value) {
      assert DispatchProviders(db, row.reference.value) == {};
    }
  }
}
