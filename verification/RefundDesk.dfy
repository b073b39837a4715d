/** The rejection and review handlers as they run against the tables. */
module RefundDesk {
  import opened Common
  import opened Finite
  import opened Refunds
  import opened RefundProofs
  import opened PairProofs
  import opened DispatchProofs
  import opened RejectionRules

  datatype Blocker =
    | MayHaveBeenPaid(reason: Reason) | NoProvablePhase(reason: Reason) | Unrecognised(reason: Reason)
    | NotProvablyParked | TransactionAnomaly(reason: Reason) | CanonicalNotPending
    | OutboundEvidence | OwnersConflict | ProviderOwns

  class Desk {
    var mirrors: map<int, Mirror>
    var canonicals: map<int, Canonical>
    var obligations: set<int>
    var anomalies: map<AnomalyKey, Phase>
    var events: set<Event>
    var refunds: seq<Refund>

    /** Injective bridge, one refund per rejection, one reversal per failed row. */
    ghost predicate Valid()
      reads this
    {
      DbOk(View())
    }

    constructor ()
      ensures Valid() && View() == INITIAL.db
    {
      mirrors, canonicals, obligations, anomalies, events, refunds := map[], map[], {}, map[], {}, [];
    }

    ghost function View(): Db
      reads this
    {
      Db(mirrors, canonicals, obligations, anomalies, events, refunds)
    }

    /** `_resolveCanonicalWithdrawalTx`, its orphan claim included. */
    method ResolveRows(w: int, page: set<int>) returns (canonical: Option<int>)
      requires w in mirrors && IsPage(View(), mirrors[w], page)
      modifies this`mirrors
      ensures View() == old(ResolveNow(View(), w, page)).0
      ensures canonical == old(ResolveNow(View(), w, page)).1
    {
      var mirror := mirrors[w];
      if mirror.bridge.Some? {
        return if mirror.bridge.value in canonicals then mirror.bridge else None;
      }
      if w in obligations { return None; }
      var linked := set v | v in mirrors && mirrors[v].bridge.Some? :: mirrors[v].bridge.value;
      var orphans := page - linked;
      assert linked == Linked(View());
      if |orphans| != 1 {
        assert forall c :: c in orphans ==> orphans != {c};
        return None;
      }
      EmptyOrInhabited(orphans);
      var c :| c in orphans;
      assert orphans == {c} by { Singleton(orphans, c); }
      mirrors := mirrors[w := mirror.(bridge := Some(c))];
      canonical := Some(c);
    }

    lemma Singleton(s: set<int>, c: int)
      requires |s| == 1 && c in s
      ensures s == {c}
    {
      assert |s - {c}| == 0;
    }

    /** `_rejectionSafetyGate` on the canonical row the handler holds. */
    method CheckGate(w: int, row: Canonical) returns (verdict: Verdict)
      ensures verdict == Gate(View(), w, row)
      ensures verdict == Safe <==> SafeToReject(View(), w, row)
      ensures verdict == NoReference <==> row.reference.None?
      ensures verdict == Settled <==> row.reference.Some? && row.status == CanonCompleted
      ensures verdict == AlreadyReversed <==> row.reference.Some? && row.status == CanonFailed
      ensures verdict == NotReversible <==> row.reference.Some? && row.status == CanonFrozen
      ensures verdict == DispatchEvidence <==>
                row.reference.Some? && row.status == CanonPending && Outbound(events, row.reference.value)
      ensures verdict == OpenException ==> Questioned(anomalies, w, row.reference.value)
    {
      GateExactly(View(), w, row);
      if row.reference.None? { return NoReference; }
      if row.status == CanonCompleted { return Settled; }
      if row.status == CanonFailed { return AlreadyReversed; }
      if row.status != CanonPending { return NotReversible; }
      var outbound := set e | e in events && e.reference == row.reference.value;
      if |outbound| > 0 {
        var e :| e in outbound;
        return DispatchEvidence;
      }
      assert forall e :: e in events ==> e in outbound || e.reference != row.reference.value;
      var ownership := OwnerOf(row);
      if ownership == Conflicting { return OwnershipConflict; }
      if ownership != Unknown { return OwnerKnown; }
      var ofMirror := OpenAnomalies(OfWithdrawal(w));
      var ofCanonical := OpenAnomalies(OfTransaction(row.reference.value));
      verdict := if |ofMirror| + |ofCanonical| > 0 then OpenException else Safe;
    }

    method OwnerOf(row: Canonical) returns (ownership: Ownership)
      ensures ownership == PayoutOwner(View(), row)
      ensures row.reference.Some? ==>
                var (moolre, mtn) := (Observed(events, row.reference.value, Moolre),
                                      Observed(events, row.reference.value, Mtn));
                && (ownership == Owned <==> row.owner.Some?)
                && (ownership == Conflicting <==> row.owner.None? && moolre && mtn)
                && (ownership == Recovered <==> row.owner.None? && moolre != mtn)
    {
      if row.reference.Some? {
        OwnerExactly(View(), row);
      }
      if row.reference.None? { return Unknown; }
      if row.owner.Some? { return Owned; }
      var providers := set e | e in events && e.reference == row.reference.value && e.dispatchedBy.Some?
                             :: e.dispatchedBy.value;
      assert providers == DispatchProviders(View(), row.reference.value);
      ownership := if |providers| == 1 then Recovered else if |providers| > 1 then Conflicting else Unknown;
    }

    /** The open exceptions attached to an entity, each once. */
    method OpenAnomalies(entity: Entity) returns (rows: seq<AnomalyKey>)
      ensures forall key :: key in rows <==> key in anomalies && key.entity == entity
      ensures |rows| > 0 <==> HasOpenAnomaly(View(), entity)
    {
      rows := [];
      var rest := anomalies.Keys;
      while rest != {}
        invariant rest <= anomalies.Keys
        invariant forall key :: key in rows <==> key in anomalies.Keys - rest && key.entity == entity
        decreases |rest|
      {
        var key :| key in rest;
        rest := rest - {key};
        if key.entity == entity {
          rows := rows + [key];
        }
      }
      if |rows| > 0 {
        assert rows[0] in rows;
      }
    }

    /** The first loop of `_reviewEligibility`: sort a withdrawal's open records into proofs and blockers. */
    method ReadParking(w: int) returns (blockers: seq<Blocker>)
      ensures blockers == [] <==>
                && (exists key :: key in anomalies && key.entity == OfWithdrawal(w)
                                  && SafelyParked(key, anomalies[key]))
                && (forall key :: key in anomalies && key.entity == OfWithdrawal(w) ==>
                      SafelyParked(key, anomalies[key]))
    {
      var rows := OpenAnomalies(OfWithdrawal(w));
      blockers := [];
      var safe: seq<AnomalyKey> := [];
      for i := 0 to |rows|
        invariant forall j :: 0 <= j < i ==> rows[j] in anomalies
        invariant |safe| <= i && (blockers == [] ==> |safe| == i)
        invariant blockers == [] <==> forall j :: 0 <= j < i ==> SafelyParked(rows[j], anomalies[rows[j]])
      {
        assert rows[i] in rows;
        var (reason, phase) := (rows[i].reason, anomalies[rows[i]]);
        if reason in UNKNOWABLE {
          blockers := blockers + [MayHaveBeenPaid(reason)];
        } else if reason in SAFE_PARKING && phase in SAFE_PHASES {
          safe := safe + [rows[i]];
        } else if reason in SAFE_PARKING {
          blockers := blockers + [NoProvablePhase(reason)];
        } else {
          blockers := blockers + [Unrecognised(reason)];
        }
      }
      if |safe| == 0 {
        blockers := blockers + [NotProvablyParked];
      }
      if |rows| > 0 {
        assert rows[0] in rows;
      }
      assert forall key :: key in rows ==> exists j :: 0 <= j < |rows| && rows[j] == key;
    }

    /** `_reviewEligibility`: no blockers means the row may be resumed or refunded. */
    method CheckReview(w: int, row: Option<Canonical>) returns (blockers: seq<Blocker>)
      ensures blockers == [] <==> MayMove(View(), w, row)
      ensures blockers == [] <==> Eligible(View(), w, row)
    {
      EligibleExactly(View(), w, row);
      blockers := ReadParking(w);
      if row.Some? && row.value.reference.Some? {
        var reference := row.value.reference.value;
        var onCanonical := OpenAnomalies(OfTransaction(reference));
        ghost var parking := blockers;
        for i := 0 to |onCanonical|
          invariant blockers == [] <==> parking == [] && i == 0
        {
          blockers := blockers + [TransactionAnomaly(onCanonical[i].reason)];
        }
        if row.value.status != CanonPending {
          blockers := blockers + [CanonicalNotPending];
        }
        if exists e :: e in events && e.reference == reference {
          blockers := blockers + [OutboundEvidence];
        }
        var ownership := OwnerOf(row.value);
        if ownership == Conflicting {
          blockers := blockers + [OwnersConflict];
        } else if ownership != Unknown {
          blockers := blockers + [ProviderOwns];
        }
      }
    }

    /** The rejection transaction of both handlers; a lost claim rolls everything back. */
    method RejectRows(w: int, review: bool, canonical: Option<int>) returns (error: Option<Error>)
      modifies this`mirrors, this`canonicals, this`obligations, this`refunds
      ensures var r := old(CommitReject(View(), w, review, canonical));
              if r.Ok? then error == None && View() == r.value else error == Some(r.error) && View() == old(View())
    {
      if w !in mirrors || !Claimable(mirrors[w].status, review) { return Some(AlreadyFinalized); }
      if canonical.Some? {
        var c := canonical.value;
        if c !in canonicals || canonicals[c].reference.None? { return Some(NoReferenceToReverse); }
        if canonicals[c].status != CanonPending { return Some(CanonicalFinalized); }
        mirrors := mirrors[w := mirrors[w].(status := Rejected)];
        refunds := refunds + [Reversal(c, Some(w), canonicals[c].amount + canonicals[c].fee)];
        canonicals := canonicals[c := canonicals[c].(status := CanonFailed)];
      } else {
        mirrors := mirrors[w := mirrors[w].(status := Rejected)];
        refunds := refunds + [LegacyRefund(w, mirrors[w].amount)];
        obligations := obligations - {w};
      }
      error := None;
    }

    /** `resolveManualReview` from its status read to its commit, without interference. */
    method ReviewRows(w: int, decision: Decision, page: set<int>)
      requires w in mirrors ==> IsPage(View(), mirrors[w], page)
      modifies this`mirrors, this`canonicals, this`obligations, this`refunds, this`anomalies
      ensures View() == old(ReviewNow(View(), w, decision, page))
    {
      if w !in mirrors || mirrors[w].status != NeedsReview { return; }
      var canonical := ResolveRows(w, page);
      var row := if canonical.Some? then Some(canonicals[canonical.value]) else None;
      var blockers := CheckReview(w, row);
      if decision == Escalate {
        mirrors := mirrors[w := mirrors[w].(status := Processing)];
        anomalies := anomalies[HandoffKey(w) := NoPhase];
      } else if blockers == [] {
        if decision == Resume {
          mirrors := mirrors[w := mirrors[w].(status := Pending)];
        } else {
          var error := RejectRows(w, true, canonical);
        }
      }
    }

    // -------------------------------------------------------------- what callers of the handlers may rely on

    /** Afterwards the withdrawal's bridge is what was found, and no bridge that was there changed. */
    method ResolveCanonical(w: int, page: set<int>) returns (canonical: Option<int>)
      requires Valid() && w in mirrors && IsPage(View(), mirrors[w], page)
      modifies this`mirrors
      ensures View() == old(ResolveNow(View(), w, page)).0
      ensures Valid() && Evolves(old(View()), View())
      ensures w in mirrors && mirrors[w].bridge == canonical
      ensures old(mirrors[w].bridge.Some?) ==> canonical == old(mirrors[w].bridge)
      ensures old(mirrors[w].bridge.None? && w in obligations) ==> canonical == None
      ensures old(mirrors[w].bridge.None? && w !in obligations) ==>
                forall c :: canonical == Some(c) <==> old(SoleOrphan(View(), page, c))
      ensures old(mirrors[w].bridge.None?) && canonical.Some? ==>
                canonical.value in canonicals && SamePayout(mirrors[w], canonicals[canonical.value])
    {
      ResolveExactly(View(), w, page);
      ResolveNowOk(View(), w, page);
      ResolvedBridge(View(), w, page);
      canonical := ResolveRows(w, page);
    }

    lemma RejectGuarantees(db: Db, w: int, review: bool, canonical: Option<int>)
      requires DbOk(db) && (canonical.Some? ==> w in db.mirrors && db.mirrors[w].bridge == canonical)
      ensures Evolves(db, db)
      ensures var r := CommitReject(db, w, review, canonical);
              r.Ok? ==>
                && DbOk(r.value) && Evolves(db, r.value) && w in r.value.mirrors
                && RejectionsOf(r.value.refunds, w) == 1 && RejectionsOf(db.refunds, w) == 0
                && (r.value.mirrors[w].bridge == canonical ==> PairRefunds(r.value, w) == 1)
    {
      SideTablesOk(db, db);
      RejectOk(db, w, review, canonical);
      if CommitReject(db, w, review, canonical).Ok? && db.mirrors[w].bridge == canonical {
        RejectRefundsOnce(db, w, review, canonical);
      }
    }

    /** A rejection that lands is the withdrawal's only one; on the current bridge it is the payout's only refund. */
    method FinishReject(w: int, review: bool, canonical: Option<int>) returns (error: Option<Error>)
      requires Valid() && (canonical.Some? ==> w in mirrors && mirrors[w].bridge == canonical)
      modifies this`mirrors, this`canonicals, this`obligations, this`refunds
      ensures var r := old(CommitReject(View(), w, review, canonical));
              if r.Ok? then error == None && View() == r.value else error == Some(r.error) && View() == old(View())
      ensures Valid() && Evolves(old(View()), View())
      ensures error.None? ==> w in mirrors && RejectionsOf(refunds, w) == 1 && old(RejectionsOf(refunds, w)) == 0
      ensures error.None? && mirrors[w].bridge == canonical ==> PairRefunds(View(), w) == 1
      ensures error.None? <==>
                && w in old(mirrors) && StillOpen(old(mirrors)[w].status, review)
                && (canonical.Some? ==>
                      canonical.value in old(canonicals) && Reversible(old(canonicals)[canonical.value]))
      ensures error.None? && canonical.Some? ==> RejectedPair(old(View()), View(), w, review, canonical.value)
      ensures error.None? && canonical.None? ==> RejectedMirror(old(View()), View(), w, review)
    {
      RejectExactly(View(), w, review, canonical);
      if canonical.Some? {
        CanonicalCommit(View(), w, review, canonical.value);
      } else {
        LegacyCommit(View(), w, review);
      }
      RejectGuarantees(View(), w, review, canonical);
      error := RejectRows(w, review, canonical);
    }

    /** A review decided in one go refunds a payout once, and moves none that was dispatched or escalated. */
    method ResolveReview(w: int, decision: Decision, page: set<int>)
      requires Valid() && (w in mirrors ==> IsPage(View(), mirrors[w], page))
      modifies this`mirrors, this`canonicals, this`obligations, this`refunds, this`anomalies
      ensures View() == old(ReviewNow(View(), w, decision, page))
      ensures Valid() && Evolves(old(View()), View())
      ensures ReviewedTo(old(View()), View(), w, Rejected) ==> PairRefunds(View(), w) == 1
      ensures ReviewedTo(old(View()), View(), w, Rejected) || ReviewedTo(old(View()), View(), w, Pending) ==>
                !old(OutOfReach(View(), w))
      ensures w in old(mirrors) && old(mirrors)[w].status == NeedsReview ==>
                ReviewEffect(old(View()), View(), w, decision)
      ensures w !in old(mirrors) || old(mirrors)[w].status != NeedsReview ==> View() == old(View())
      ensures w in old(mirrors) && old(mirrors)[w].status == NeedsReview && decision == Escalate ==>
                && mirrors[w].status == Processing
                && anomalies == old(anomalies)[AnomalyKey(OfWithdrawal(w), EscalatedToReconciliation) := NoPhase]
                && refunds == old(refunds) && canonicals == old(canonicals)
    {
      if w in mirrors && mirrors[w].status == NeedsReview {
        ReviewExactly(View(), w, decision, page);
      }
      ghost var before := View();
      ReviewRows(w, decision, page);
      ReviewOk(before, w, decision, page);
      if ReviewedTo(before, View(), w, Rejected) {
        ReviewRefundsOnce(before, w, decision, page);
      }
      if ReviewedTo(before, View(), w, Rejected) || ReviewedTo(before, View(), w, Pending) {
        ReviewedWasClear(before, w, decision, page);
      }
    }
  }

  /** A parked withdrawal left review with the given status. */
  predicate ReviewedTo(before: Db, after: Db, w: int, status: MirrorStatus) {
    && w in before.mirrors && before.mirrors[w].status == NeedsReview
    && w in after.mirrors && after.mirrors[w].status == status
  }
}
