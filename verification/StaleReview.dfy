/**
 A review split into reads and a later commit, without a check at the commit, refunds a
 dispatched payout: the run, step by step.
 */
module StaleReview {
  import opened Common
  import opened Refunds
  import opened RefundProofs
  import opened DispatchProofs

  const ROW: Canonical := Canonical(7, 500, 5, 0, Some("ref"), CanonPending, None)

  const PARKED: AnomalyKey := AnomalyKey(OfWithdrawal(1), AmountExceedsThreshold)

  const SENT: Event := Event("ref", Some(Moolre))

  /** Payout 1, bridged to canonical 10, parked before dispatch, in the given status. */
  function Story(status: MirrorStatus, events: set<Event>): Db {
    Db(map[1 := Mirror(7, 500, 0, status, Some(10))], map[10 := ROW], {}, map[PARKED := PreDispatch], events, [])
  }

  const READ: seq<Ticket> := [Opened(1, true), Resolved(1, true, Some(Seen(10, ROW)))]

  const CLEARED: seq<Ticket> := READ + [Cleared(1, true, Some(10))]

  lemma StoryIsParked(status: MirrorStatus)
    ensures IsPage(Story(status, {}), Story(status, {}).mirrors[1], {10})
    ensures MayMove(Story(status, {}), 1, Some(ROW))
  {
    var db := Story(status, {});
    assert Matches(db, db.mirrors[1]) == {10};
    assert PARKED in db.anomalies && SafelyParked(PARKED, db.anomalies[PARKED]);
    assert DispatchProviders(db, "ref") == {};
  }

  const CREATE: Step := NewMirror(1, 7, 500, 0, false, Some(Seen(10, ROW)))

  function Newborn(): Db {
    Story(Pending, {}).(anomalies := map[])
  }

  lemma CreateStory()
    ensures Environment(INITIAL.db, CREATE) == Newborn()
  {
  }

  lemma ParkStory()
    ensures Environment(Newborn(), Raise(PARKED, PreDispatch)) == Story(Pending, {})
    ensures Environment(Story(Pending, {}), Move(1, NeedsReview)) == Story(NeedsReview, {})
  {
  }

  lemma ParkPayout() returns (steps: seq<Step>)
    ensures Run(INITIAL, steps) == System(Story(NeedsReview, {}), [])
  {
    CreateStory();
    ParkStory();
    steps := Extend([], INITIAL, CREATE, System(Newborn(), []));
    steps := Extend(steps, System(Newborn(), []), Raise(PARKED, PreDispatch), System(Story(Pending, {}), []));
    steps := Extend(steps, System(Story(Pending, {}), []), Move(1, NeedsReview), System(Story(NeedsReview, {}), []));
  }

  /** The first operator's three reads. */
  lemma ReviewReads()
    ensures var db := Story(NeedsReview, {});
            && Next(System(db, []), Open(1, true)) == System(db, [Opened(1, true)])
            && Next(System(db, [Opened(1, true)]), Resolve(0, {10})) == System(db, READ)
            && Next(System(db, READ), Clear(1)) == System(db, CLEARED)
  {
    StoryIsParked(NeedsReview);
  }

  /** The first operator reads, resolves and is cleared to reject. */
  lemma ClearReview(steps: seq<Step>) returns (longer: seq<Step>)
    requires Run(INITIAL, steps) == System(Story(NeedsReview, {}), [])
    ensures Run(INITIAL, longer) == System(Story(NeedsReview, {}), CLEARED)
  {
    var db := Story(NeedsReview, {});
    ReviewReads();
    longer := Extend(steps, System(db, []), Open(1, true), System(db, [Opened(1, true)]));
    longer := Extend(longer, System(db, [Opened(1, true)]), Resolve(0, {10}), System(db, READ));
    longer := Extend(longer, System(db, READ), Clear(1), System(db, CLEARED));
  }

  lemma ResumeStory()
    ensures ReviewNow(Story(NeedsReview, {}), 1, Resume, {10}) == Story(Pending, {})
  {
    StoryIsParked(NeedsReview);
  }

  lemma DispatchStory()
    ensures Environment(Story(Pending, {}), Move(1, Processing)) == Story(Processing, {})
    ensures Environment(Story(Processing, {}), WriteEvent(10, Some(Moolre))) == Story(Processing, {SENT})
    ensures Environment(Story(Processing, {SENT}), Move(1, NeedsReview)) == Story(NeedsReview, {SENT})
  {
    assert Story(Processing, {}).mirrors[1].bridge == Some(10);
  }

  /** The same steps while the first operator waits with its tickets. */
  lemma ResumeSteps()
    ensures Next(System(Story(NeedsReview, {}), CLEARED), Review(1, Resume, {10}))
         == System(Story(Pending, {}), CLEARED)
    ensures Next(System(Story(Pending, {}), CLEARED), Move(1, Processing)) == System(Story(Processing, {}), CLEARED)
  {
    ResumeStory();
    DispatchStory();
  }

  lemma DispatchSteps()
    ensures Next(System(Story(Processing, {}), CLEARED), WriteEvent(10, Some(Moolre)))
         == System(Story(Processing, {SENT}), CLEARED)
    ensures Next(System(Story(Processing, {SENT}), CLEARED), Move(1, NeedsReview))
         == System(Story(NeedsReview, {SENT}), CLEARED)
  {
    DispatchStory();
  }

  /** A second operator resumes the payout, a worker dispatches it, and it is parked again. */
  lemma {:induction false} DispatchMeanwhile(steps: seq<Step>) returns (longer: seq<Step>)
    requires Run(INITIAL, steps) == System(Story(NeedsReview, {}), CLEARED)
    ensures Run(INITIAL, longer) == System(Story(NeedsReview, {SENT}), CLEARED)
  {
    ResumeSteps();
    longer := Extend(steps, System(Story(NeedsReview, {}), CLEARED), Review(1, Resume, {10}),
                     System(Story(Pending, {}), CLEARED));
    longer := Extend(longer, System(Story(Pending, {}), CLEARED), Move(1, Processing),
                     System(Story(Processing, {}), CLEARED));
    DispatchSteps();
    longer := Extend(longer, System(Story(Processing, {}), CLEARED), WriteEvent(10, Some(Moolre)),
                     System(Story(Processing, {SENT}), CLEARED));
    longer := Extend(longer, System(Story(Processing, {SENT}), CLEARED), Move(1, NeedsReview),
                     System(Story(NeedsReview, {SENT}), CLEARED));
  }

  lemma StaleRejectLands()
    ensures Next(System(Story(NeedsReview, {SENT}), CLEARED), FinishReject(2)).db.refunds
         == [Reversal(10, Some(1), 505)]
  {
  }

  /**
   Split into reads and a later commit, a review can refund a dispatched payout: the first
   operator's rejection finds the status it expects although the payout went out meanwhile.
   */
  lemma {:induction false} StaleReviewRefundsDispatched() returns (steps: seq<Step>)
    ensures SENT in Run(INITIAL, steps).db.events && Carries(Run(INITIAL, steps).db, 1, SENT.reference)
    ensures RefundsMirror(Run(INITIAL, steps), FinishReject(2), 1)
  {
    steps := ParkPayout();
    steps := ClearReview(steps);
    steps := DispatchMeanwhile(steps);
    StaleRejectLands();
    CountsAppend([], Reversal(10, Some(1), 505));
    assert [] + [Reversal(10, Some(1), 505)] == [Reversal(10, Some(1), 505)];
  }
}
