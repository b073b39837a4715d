/**
 Refunds of a whole payout: the withdrawal and the canonical row bridged to it, taken
 together. A rejection that found no canonical row refunds the mirror alone and never looks
 at the bridge again, so a bridge that appears around it leaves a second refund possible.
 */
module PairProofs {
  import opened Common
  import opened Refunds
  import opened RefundProofs

  // ---------------------------------------------------------------- counting over the pair

  /** A refund that hands back the payout's money: to the withdrawal, or on its bridged row. */
  predicate PaysPair(r: Refund, w: int, bridge: Option<int>) {
    PaysMirror(r, w) || (r.Reversal? && bridge == Some(r.canonical))
  }

  function PairRefundsOf(refunds: seq<Refund>, w: int, bridge: Option<int>): nat {
    if refunds == [] then 0
    else
      PairRefundsOf(refunds[..|refunds| - 1], w, bridge)
      + if PaysPair(refunds[|refunds| - 1], w, bridge) then 1 else 0
  }

  /** All refunds of the payout: rejections of the withdrawal and reversals of its row, each counted once. */
  function PairRefunds(db: Db, w: int): nat
    requires w in db.mirrors
  {
    PairRefundsOf(db.refunds, w, db.mirrors[w].bridge)
  }

  predicate IsLegacy(r: Refund, w: int) {
    r.LegacyRefund? && r.mirror == w
  }

  function LegacyOf(refunds: seq<Refund>, w: int): nat {
    if refunds == [] then 0
    else LegacyOf(refunds[..|refunds| - 1], w) + if IsLegacy(refunds[|refunds| - 1], w) then 1 else 0
  }

  lemma LegacyAppend(refunds: seq<Refund>, r: Refund, w: int)
    ensures LegacyOf(refunds + [r], w) == LegacyOf(refunds, w) + if IsLegacy(r, w) then 1 else 0
  {
    assert (refunds + [r])[..|refunds|] == refunds;
  }

  /** Reversals that rejected the withdrawal reversed its bridged row. */
  predicate Matched(refunds: seq<Refund>, w: int, bridge: Option<int>) {
    forall i :: 0 <= i < |refunds| && refunds[i].Reversal? && refunds[i].rejectedMirror == Some(w) ==>
      bridge == Some(refunds[i].canonical)
  }

  lemma {:induction false} PairSplits(refunds: seq<Refund>, w: int, bridge: Option<int>)
    requires Matched(refunds, w, bridge)
    ensures PairRefundsOf(refunds, w, bridge)
         == LegacyOf(refunds, w) + if bridge.Some? then ReversalsOf(refunds, bridge.value) else 0
    ensures LegacyOf(refunds, w) <= RejectionsOf(refunds, w) <= PairRefundsOf(refunds, w, bridge)
    ensures bridge.None? ==> LegacyOf(refunds, w) == RejectionsOf(refunds, w)
  {
    if refunds != [] {
      var n := |refunds| - 1;
      assert forall i :: 0 <= i < n ==> refunds[..n][i] == refunds[i];
      PairSplits(refunds[..n], w, bridge);
    }
  }

  /** The withdrawal's bridged row was reversed. */
  predicate CanonicalReversed(db: Db, w: int) {
    w in db.mirrors && db.mirrors[w].bridge.Some? && db.mirrors[w].bridge.value in db.canonicals
    && db.canonicals[db.mirrors[w].bridge.value].status == CanonFailed
  }

  lemma PairCount(db: Db, w: int)
    requires DbOk(db) && w in db.mirrors
    ensures PairRefunds(db, w) == LegacyOf(db.refunds, w) + if CanonicalReversed(db, w) then 1 else 0
    ensures LegacyOf(db.refunds, w) <= (if db.mirrors[w].status == Rejected then 1 else 0) <= PairRefunds(db, w)
    ensures db.mirrors[w].bridge.None? ==> (LegacyOf(db.refunds, w) == 1 <==> db.mirrors[w].status == Rejected)
  {
    PairSplits(db.refunds, w, db.mirrors[w].bridge);
  }

  lemma NoLegacyForNew(db: Db, w: int)
    requires DbOk(db) && w !in db.mirrors
    ensures LegacyOf(db.refunds, w) == 0
  {
    assert Matched(db.refunds, w, None);
    PairSplits(db.refunds, w, None);
  }

  // ---------------------------------------------------------------- exposure

  /** Refunded on the legacy path, yet bridged: a later reversal of its row would be a second refund. */
  predicate Exposed(db: Db, w: int) {
    w in db.mirrors && db.mirrors[w].bridge.Some? && LegacyOf(db.refunds, w) > 0
  }

  /** A legacy rejection about to land on a withdrawal that has a bridge by now. */
  predicate LegacyLandsOnBridged(s: System, step: Step, w: int) {
    step.FinishReject? && step.k < |s.tickets| &&
    var t := s.tickets[step.k];
    t.Cleared? && t.w == w && t.canonical.None?
    && w in s.db.mirrors && Claimable(s.db.mirrors[w].status, t.review) && s.db.mirrors[w].bridge.Some?
  }

  /** An orphan claim about to land on a withdrawal that is REJECTED by now. */
  predicate ClaimLandsOnRejected(s: System, step: Step, w: int) {
    step.ClaimOrphan? && step.k < |s.tickets| &&
    var t := s.tickets[step.k];
    t.Claiming? && t.w == w && w in s.db.mirrors && s.db.mirrors[w].bridge.None?
    && s.db.mirrors[w].status == Rejected && ClaimWins(s.db, w, t.orphan.id)
  }

  predicate Exposes(s: System, step: Step, w: int) {
    LegacyLandsOnBridged(s, step, w) || ClaimLandsOnRejected(s, step, w)
  }

  predicate EverExposes(steps: seq<Step>, w: int) {
    steps != []
    && (EverExposes(steps[..|steps| - 1], w) || Exposes(Run(INITIAL, steps[..|steps| - 1]), steps[|steps| - 1], w))
  }

  /** Only a provider's failure report hands money back outside the handlers. */
  lemma EnvironmentRefunds(db: Db, step: Step)
    requires !step.ProviderFailed?
    ensures Environment(db, step).refunds == db.refunds
  {
  }

  lemma ProviderNeverExposes(db: Db, c: int, w: int)
    ensures var r := Reverse(db, c, None); r.Ok? ==> (Exposed(r.value, w) <==> Exposed(db, w))
  {
    if Reverse(db, c, None).Ok? {
      LegacyAppend(db.refunds, Reversal(c, None, db.canonicals[c].amount + db.canonicals[c].fee), w);
    }
  }

  lemma EnvironmentNeverExposes(db: Db, step: Step, w: int)
    requires DbOk(db)
    ensures Exposed(Environment(db, step), w) <==> Exposed(db, w)
  {
    if step.ProviderFailed? {
      ProviderNeverExposes(db, step.failedC, w);
    } else {
      EnvironmentRefunds(db, step);
      if w in db.mirrors {
        EnvironmentKeepsBridge(db, step, w);
      } else {
        NoLegacyForNew(db, w);
      }
    }
  }

  lemma ClaimExposure(db: Db, v: int, c: int, w: int)
    requires DbOk(db) && v in db.mirrors
    ensures Exposed(Claim(db, v, c), w)
       <==> Exposed(db, w)
            || (v == w && db.mirrors[w].bridge.None? && db.mirrors[w].status == Rejected && ClaimWins(db, v, c))
  {
    if w in db.mirrors {
      PairCount(db, w);
    }
  }

  lemma LegacyExposure(db: Db, db': Db, v: int, review: bool, w: int)
    requires RejectedMirror(db, db', v, review)
    ensures Exposed(db', w) <==> Exposed(db, w) || (v == w && db.mirrors[w].bridge.Some?)
  {
    LegacyAppend(db.refunds, LegacyRefund(v, db.mirrors[v].amount), w);
  }

  lemma PairExposure(db: Db, db': Db, v: int, review: bool, c: int, w: int)
    requires RejectedPair(db, db', v, review, c)
    ensures Exposed(db', w) <==> Exposed(db, w)
  {
    LegacyAppend(db.refunds, Reversal(c, Some(v), db.canonicals[c].amount + db.canonicals[c].fee), w);
  }

  lemma RejectExposure(db: Db, v: int, review: bool, canonical: Option<int>, w: int)
    requires CommitReject(db, v, review, canonical).Ok?
    ensures Exposed(CommitReject(db, v, review, canonical).value, w)
       <==> Exposed(db, w) || (v == w && canonical.None? && db.mirrors[w].bridge.Some?)
  {
    var db' := CommitReject(db, v, review, canonical).value;
    match canonical
    case None => LegacyCommit(db, v, review); LegacyExposure(db, db', v, review, w);
    case Some(c) => CanonicalCommit(db, v, review, c); PairExposure(db, db', v, review, c, w);
  }

  lemma DecideOnOthers(db: Db, v: int, decision: Decision, canonical: Option<int>, w: int)
    requires DbOk(db) && v in db.mirrors && canonical == db.mirrors[v].bridge
    ensures Exposed(Decide(db, v, decision, canonical), w) <==> Exposed(db, w)
  {
    if decision == RejectIt && CommitReject(db, v, true, canonical).Ok? {
      RejectExposure(db, v, true, canonical, w);
    }
  }

  /** A whole review decision looks at the bridge it acts on, so it exposes nothing. */
  lemma ReviewNeverExposes(db: Db, v: int, decision: Decision, page: set<int>, w: int)
    requires DbOk(db)
    ensures Exposed(ReviewNow(db, v, decision, page), w) <==> Exposed(db, w)
  {
    if v in db.mirrors && db.mirrors[v].status == NeedsReview && IsPage(db, db.mirrors[v], page) {
      var (resolved, canonical) := ResolveNow(db, v, page);
      ResolveNowOk(db, v, page);
      ResolvedBridge(db, v, page);
      match ResolveRead(db, v, page) {
        case Adopt(c) => ClaimExposure(db, v, c, w);
        case _ =>
      }
      DecideOnOthers(resolved, v, decision, canonical, w);
    }
  }

  lemma QuietCommits(db: Db, v: int, w: int)
    ensures var r := CommitResume(db, v); r.Ok? ==> (Exposed(r.value, w) <==> Exposed(db, w))
    ensures var r := CommitEscalate(db, v); r.Ok? ==> (Exposed(r.value, w) <==> Exposed(db, w))
  {
  }

  lemma ClaimTicketExposure(s: System, step: Step, w: int)
    requires Inv(s) && step.ClaimOrphan?
    ensures Exposed(Next(s, step).db, w) <==> Exposed(s.db, w) || Exposes(s, step, w)
  {
    if step.k < |s.tickets| && s.tickets[step.k].Claiming? {
      assert TicketOk(s.db, s.tickets[step.k]);
      ClaimExposure(s.db, s.tickets[step.k].w, s.tickets[step.k].orphan.id, w);
    }
  }

  lemma RejectTicketExposure(s: System, step: Step, w: int)
    requires Inv(s) && step.FinishReject?
    ensures Exposed(Next(s, step).db, w) <==> Exposed(s.db, w) || Exposes(s, step, w)
  {
    if step.k < |s.tickets| && s.tickets[step.k].Cleared? {
      var t := s.tickets[step.k];
      assert TicketOk(s.db, t);
      if CommitReject(s.db, t.w, t.review, t.canonical).Ok? {
        RejectExposure(s.db, t.w, t.review, t.canonical, w);
      }
    }
  }

  lemma QuietTicketExposure(s: System, step: Step, w: int)
    requires step.FinishResume? || step.FinishEscalate?
    ensures Exposed(Next(s, step).db, w) <==> Exposed(s.db, w)
  {
    if step.k < |s.tickets| {
      QuietCommits(s.db, s.tickets[step.k].w, w);
    }
  }

  lemma {:induction false} ExposureExactly(s: System, step: Step, w: int)
    requires Inv(s)
    ensures Exposed(Next(s, step).db, w) <==> Exposed(s.db, w) || Exposes(s, step, w)
  {
    if IsRead(step) {
      ReadsKeepDb(s, step);
    } else if step.ClaimOrphan? {
      ClaimTicketExposure(s, step, w);
    } else if step.FinishReject? {
      RejectTicketExposure(s, step, w);
    } else if step.FinishResume? || step.FinishEscalate? {
      QuietTicketExposure(s, step, w);
    } else if step.Review? {
      ReviewNeverExposes(s.db, step.reviewedW, step.decision, step.reviewPage, w);
    } else {
      EnvironmentNeverExposes(s.db, step, w);
    }
  }

  lemma {:induction false} ExposedIffExposing(steps: seq<Step>, w: int)
    ensures Exposed(Run(INITIAL, steps).db, w) <==> EverExposes(steps, w)
  {
    if steps != [] {
      var prefix := steps[..|steps| - 1];
      ExposedIffExposing(prefix, w);
      Reachable(prefix);
      ExposureExactly(Run(INITIAL, prefix), steps[|steps| - 1], w);
    }
  }

  // ---------------------------------------------------------------- theorems

  /**
   Over every run a payout is refunded at most once, rejections and reversals together,
   exactly unless its canonical row was reversed and some step exposed it: a legacy
   rejection that landed on a bridged withdrawal, or a claim that landed on a rejected one.
   */
  lemma {:induction false} PairRefundedOnceIff(steps: seq<Step>, w: int)
    requires w in Run(INITIAL, steps).db.mirrors
    ensures var db := Run(INITIAL, steps).db;
            && (PairRefunds(db, w) <= 1 <==> !(EverExposes(steps, w) && CanonicalReversed(db, w)))
            && PairRefunds(db, w) <= 2
            && (PairRefunds(db, w) == 0 <==> db.mirrors[w].status != Rejected && !CanonicalReversed(db, w))
  {
    var db := Run(INITIAL, steps).db;
    Reachable(steps);
    PairCount(db, w);
    ExposedIffExposing(steps, w);
  }

  predicate OnlyRejectionsReverse(refunds: seq<Refund>) {
    forall i :: 0 <= i < |refunds| && refunds[i].Reversal? ==> refunds[i].rejectedMirror.Some?
  }

  lemma CommitsReverseByRejection(db: Db, w: int, review: bool, canonical: Option<int>)
    requires OnlyRejectionsReverse(db.refunds)
    ensures var r := CommitReject(db, w, review, canonical); r.Ok? ==> OnlyRejectionsReverse(r.value.refunds)
  {
  }

  lemma NextReversesByRejection(s: System, step: Step)
    requires OnlyRejectionsReverse(s.db.refunds) && !step.ProviderFailed?
    ensures OnlyRejectionsReverse(Next(s, step).db.refunds)
  {
    if step.FinishReject? {
      if step.k < |s.tickets| && s.tickets[step.k].Cleared? {
        var t := s.tickets[step.k];
        CommitsReverseByRejection(s.db, t.w, t.review, t.canonical);
      }
    } else if step.Review? {
      ReviewReversesByRejection(s.db, step.reviewedW, step.decision, step.reviewPage);
    }
  }

  lemma ReviewReversesByRejection(db: Db, w: int, decision: Decision, page: set<int>)
    requires OnlyRejectionsReverse(db.refunds)
    ensures OnlyRejectionsReverse(ReviewNow(db, w, decision, page).refunds)
  {
    if w in db.mirrors && db.mirrors[w].status == NeedsReview && IsPage(db, db.mirrors[w], page) {
      var (resolved, canonical) := ResolveNow(db, w, page);
      assert resolved.refunds == db.refunds;
      CommitsReverseByRejection(resolved, w, true, canonical);
    }
  }

  lemma {:induction false} PairIsMirror(refunds: seq<Refund>, w: int, bridge: Option<int>)
    requires forall i :: 0 <= i < |refunds| ==> (PaysPair(refunds[i], w, bridge) <==> PaysMirror(refunds[i], w))
    ensures PairRefundsOf(refunds, w, bridge) == RejectionsOf(refunds, w)
  {
    if refunds != [] {
      var n := |refunds| - 1;
      assert forall i :: 0 <= i < n ==> refunds[..n][i] == refunds[i];
      PairIsMirror(refunds[..n], w, bridge);
    }
  }

  lemma {:induction false} RunReversesByRejection(steps: seq<Step>)
    requires forall i :: 0 <= i < |steps| ==> !steps[i].ProviderFailed?
    ensures OnlyRejectionsReverse(Run(INITIAL, steps).db.refunds)
  {
    if steps != [] {
      RunReversesByRejection(steps[..|steps| - 1]);
      NextReversesByRejection(Run(INITIAL, steps[..|steps| - 1]), steps[|steps| - 1]);
    }
  }

  /** When only rejections reverse canonical rows, a payout is refunded once if REJECTED and never otherwise. */
  lemma {:induction false} PairRefundedOnce(steps: seq<Step>, w: int)
    requires w in Run(INITIAL, steps).db.mirrors
    requires forall i :: 0 <= i < |steps| ==> !steps[i].ProviderFailed?
    ensures var db := Run(INITIAL, steps).db;
            PairRefunds(db, w) == if db.mirrors[w].status == Rejected then 1 else 0
  {
    var db := Run(INITIAL, steps).db;
    Reachable(steps);
    RunReversesByRejection(steps);
    PairIsMirror(db.refunds, w, db.mirrors[w].bridge);
  }

  /** A rejection that acts on the bridge it finds refunds the payout once and for all. */
  lemma RejectRefundsOnce(db: Db, w: int, review: bool, canonical: Option<int>)
    requires DbOk(db) && w in db.mirrors && db.mirrors[w].bridge == canonical
    requires CommitReject(db, w, review, canonical).Ok?
    ensures var db' := CommitReject(db, w, review, canonical).value;
            w in db'.mirrors && db'.mirrors[w].status == Rejected && PairRefunds(db', w) == 1
  {
    var db' := CommitReject(db, w, review, canonical).value;
    RejectOk(db, w, review, canonical);
    PairCount(db, w);
    RejectExposure(db, w, review, canonical, w);
    PairCount(db', w);
  }

  /** So does a whole review that ends in rejection. */
  lemma ReviewRefundsOnce(db: Db, w: int, decision: Decision, page: set<int>)
    requires DbOk(db) && w in db.mirrors && db.mirrors[w].status == NeedsReview
    requires w in ReviewNow(db, w, decision, page).mirrors
    requires ReviewNow(db, w, decision, page).mirrors[w].status == Rejected
    ensures PairRefunds(ReviewNow(db, w, decision, page), w) == 1
  {
    var db' := ReviewNow(db, w, decision, page);
    ReviewOk(db, w, decision, page);
    ReviewNeverExposes(db, w, decision, page, w);
    PairCount(db, w);
    PairCount(db', w);
  }

  // ---------------------------------------------------------------- a second refund

  /** Two rows from before the bridge, four seconds apart, and the two withdrawals they were made for. */
  const EARLY: Canonical := Canonical(7, 500, 5, 0, Some("early"), CanonPending, None)

  const LATE: Canonical := Canonical(7, 500, 5, 4_000, Some("late"), CanonPending, None)

  function First(status: MirrorStatus, bridge: Option<int>): Mirror {
    Mirror(7, 500, 0, status, bridge)
  }

  function Second(bridge: Option<int>): Mirror {
    Mirror(7, 500, 8_000, Pending, bridge)
  }

  const BEFORE: Db :=
    Db(map[1 := First(Pending, None), 2 := Second(None)], map[10 := EARLY, 11 := LATE], {}, map[], {}, [])

  const ONE_LEFT: Db := BEFORE.(mirrors := map[1 := First(Pending, None), 2 := Second(Some(11))])

  const BRIDGED: Db := BEFORE.(mirrors := map[1 := First(Pending, Some(10)), 2 := Second(Some(11))])

  const REFUNDED: Db :=
    BEFORE.(mirrors := map[1 := First(Rejected, Some(10)), 2 := Second(Some(11))], refunds := [LegacyRefund(1, 500)])

  const TWICE: Db :=
    REFUNDED.(canonicals := map[10 := EARLY.(status := CanonFailed), 11 := LATE],
              refunds := [LegacyRefund(1, 500), Reversal(10, None, 505)])

  /** What the rejection holds: two rows matched, so it found none and was cleared for the legacy path. */
  const REJECTION: seq<Ticket> := [Opened(1, false), Resolved(1, false, None), Cleared(1, false, None)]

  /** What the workers hold: the late row for the second withdrawal, then the one left for the first. */
  const ONE_PICK: seq<Ticket> := REJECTION + [Claiming(2, false, Seen(11, LATE), true)]

  const TWO_PICKS: seq<Ticket> := ONE_PICK + [Claiming(1, false, Seen(10, EARLY), true)]

  const ROWS: Db := Db(map[], map[10 := EARLY, 11 := LATE], {}, map[], {}, [])

  const ONE_ROW: Db := Db(map[], map[10 := EARLY], {}, map[], {}, [])

  const ONE_MIRROR: Db := ROWS.(mirrors := map[1 := First(Pending, None)])

  lemma RowsAppear()
    ensures Environment(INITIAL.db, NewCanonical(10, EARLY)) == ONE_ROW
    ensures Environment(ONE_ROW, NewCanonical(11, LATE)) == ROWS
    ensures Environment(ROWS, NewMirror(1, 7, 500, 0, false, None)) == ONE_MIRROR
    ensures Environment(ONE_MIRROR, NewMirror(2, 7, 500, 8_000, false, None)) == BEFORE
  {
  }

  lemma {:induction false} RowsStand() returns (steps: seq<Step>)
    ensures Run(INITIAL, steps) == System(BEFORE, [])
  {
    RowsAppear();
    steps := Extend([], INITIAL, NewCanonical(10, EARLY), System(ONE_ROW, []));
    steps := Extend(steps, System(ONE_ROW, []), NewCanonical(11, LATE), System(ROWS, []));
    steps := Extend(steps, System(ROWS, []), NewMirror(1, 7, 500, 0, false, None), System(ONE_MIRROR, []));
    steps := Extend(steps, System(ONE_MIRROR, []), NewMirror(2, 7, 500, 8_000, false, None), System(BEFORE, []));
  }

  lemma TwoMatch()
    ensures IsPage(BEFORE, BEFORE.mirrors[1], {10, 11}) && ResolveRead(BEFORE, 1, {10, 11}) == Nothing
  {
    assert Matches(BEFORE, BEFORE.mirrors[1]) == {10, 11};
    var orphans := {10, 11} - Linked(BEFORE);
    assert orphans == {10, 11};
    assert forall c :: c in orphans ==> orphans != {c} by {
      assert 10 in orphans && 11 in orphans;
    }
  }

  lemma RejectionReads()
    ensures Next(System(BEFORE, []), Open(1, false)) == System(BEFORE, REJECTION[..1])
    ensures Next(System(BEFORE, REJECTION[..1]), Resolve(0, {10, 11})) == System(BEFORE, REJECTION[..2])
    ensures Next(System(BEFORE, REJECTION[..2]), Clear(1)) == System(BEFORE, REJECTION)
  {
    TwoMatch();
  }

  /** The rejection of withdrawal 1 reads everything it will ever read. */
  lemma {:induction false} RejectionDecides() returns (steps: seq<Step>)
    ensures Run(INITIAL, steps) == System(BEFORE, REJECTION)
  {
    steps := RowsStand();
    RejectionReads();
    steps := Extend(steps, System(BEFORE, []), Open(1, false), System(BEFORE, REJECTION[..1]));
    steps := Extend(steps, System(BEFORE, REJECTION[..1]), Resolve(0, {10, 11}), System(BEFORE, REJECTION[..2]));
    steps := Extend(steps, System(BEFORE, REJECTION[..2]), Clear(1), System(BEFORE, REJECTION));
  }

  lemma LatePicked()
    ensures Next(System(BEFORE, REJECTION), Pick(2, 11)) == System(BEFORE, ONE_PICK)
    ensures Next(System(BEFORE, ONE_PICK), ClaimOrphan(3)) == System(ONE_LEFT, ONE_PICK)
  {
    assert 11 in Matches(BEFORE, BEFORE.mirrors[2]) && Linked(BEFORE) == {};
  }

  lemma EarlyPicked()
    ensures Next(System(ONE_LEFT, ONE_PICK), Pick(1, 10)) == System(ONE_LEFT, TWO_PICKS)
    ensures Next(System(ONE_LEFT, TWO_PICKS), ClaimOrphan(4)) == System(BRIDGED, TWO_PICKS)
  {
    assert 10 in Matches(ONE_LEFT, ONE_LEFT.mirrors[1]) && 10 !in Linked(ONE_LEFT);
  }

  /** Workers bridge both withdrawals meanwhile. */
  lemma {:induction false} WorkersBridge(before: seq<Step>) returns (steps: seq<Step>)
    requires Run(INITIAL, before) == System(BEFORE, REJECTION)
    ensures Run(INITIAL, steps) == System(BRIDGED, TWO_PICKS)
  {
    LatePicked();
    steps := Extend(before, System(BEFORE, REJECTION), Pick(2, 11), System(BEFORE, ONE_PICK));
    steps := Extend(steps, System(BEFORE, ONE_PICK), ClaimOrphan(3), System(ONE_LEFT, ONE_PICK));
    EarlyPicked();
    steps := Extend(steps, System(ONE_LEFT, ONE_PICK), Pick(1, 10), System(ONE_LEFT, TWO_PICKS));
    steps := Extend(steps, System(ONE_LEFT, TWO_PICKS), ClaimOrphan(4), System(BRIDGED, TWO_PICKS));
  }

  lemma RefundsLand()
    ensures Next(System(BRIDGED, TWO_PICKS), FinishReject(2)) == System(REFUNDED, TWO_PICKS)
    ensures Next(System(REFUNDED, TWO_PICKS), ProviderFailed(10)) == System(TWICE, TWO_PICKS)
  {
  }

  lemma RefundedTwice()
    ensures PairRefunds(TWICE, 1) == 2
  {
    PairAppend([], LegacyRefund(1, 500), 1, Some(10));
    PairAppend([LegacyRefund(1, 500)], Reversal(10, None, 505), 1, Some(10));
    assert [] + [LegacyRefund(1, 500)] == [LegacyRefund(1, 500)];
  }

  /**
   The exposure is real, over rows from before the bridge: a rejection that matched two rows goes
   the legacy way and lands after workers bridged one to it; when the provider fails that row the
   payout is refunded again.
   */
  lemma {:induction false} LegacyRefundDoubles() returns (steps: seq<Step>)
    ensures 1 in Run(INITIAL, steps).db.mirrors && PairRefunds(Run(INITIAL, steps).db, 1) == 2
  {
    steps := RejectionDecides();
    steps := WorkersBridge(steps);
    RefundsLand();
    steps := Extend(steps, System(BRIDGED, TWO_PICKS), FinishReject(2), System(REFUNDED, TWO_PICKS));
    steps := Extend(steps, System(REFUNDED, TWO_PICKS), ProviderFailed(10), System(TWICE, TWO_PICKS));
    RefundedTwice();
  }

  lemma PairAppend(refunds: seq<Refund>, r: Refund, w: int, bridge: Option<int>)
    ensures PairRefundsOf(refunds + [r], w, bridge)
         == PairRefundsOf(refunds, w, bridge) + if PaysPair(r, w, bridge) then 1 else 0
  {
    assert (refunds + [r])[..|refunds|] == refunds;
  }
}
