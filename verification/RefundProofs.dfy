/**
 Whole-run guarantees of rejection and review: each withdrawal is rejected with one refund,
 each canonical row is reversed once, and each canonical row has one owner.
 */
module RefundProofs {
  import opened Common
  import opened Refunds

  // ---------------------------------------------------------------- counting refunds

  function RejectionsOf(refunds: seq<Refund>, w: int): nat {
    if refunds == [] then 0
    else
      RejectionsOf(refunds[..|refunds| - 1], w) + if PaysMirror(refunds[|refunds| - 1], w) then 1 else 0
  }

  predicate PaysMirror(r: Refund, w: int) {
    match r
    case LegacyRefund(mirror, _) => mirror == w
    case Reversal(_, rejected, _) => rejected == Some(w)
  }

  function ReversalsOf(refunds: seq<Refund>, c: int): nat {
    if refunds == [] then 0
    else
      ReversalsOf(refunds[..|refunds| - 1], c)
      + if refunds[|refunds| - 1].Reversal? && refunds[|refunds| - 1].canonical == c then 1 else 0
  }

  lemma CountsAppend(refunds: seq<Refund>, r: Refund)
    ensures forall w :: RejectionsOf(refunds + [r], w)
                     == RejectionsOf(refunds, w) + if PaysMirror(r, w) then 1 else 0
    ensures forall c :: ReversalsOf(refunds + [r], c)
                     == ReversalsOf(refunds, c) + if r.Reversal? && r.canonical == c then 1 else 0
  {
    assert (refunds + [r])[..|refunds|] == refunds;
  }

  // ---------------------------------------------------------------- the invariant

  /** The bridge is injective and never dangles. */
  predicate BridgeOk(db: Db) {
    && (forall w :: w in db.mirrors && db.mirrors[w].bridge.Some? ==> db.mirrors[w].bridge.value in db.canonicals)
    && (forall v, w :: v in db.mirrors && w in db.mirrors && v != w && db.mirrors[v].bridge.Some? ==>
          db.mirrors[v].bridge != db.mirrors[w].bridge)
  }

  /** Each rejected mirror was paid exactly once, each failed canonical reversed exactly once, no other ever. */
  ghost predicate PaidOnce(db: Db) {
    && (forall w :: RejectionsOf(db.refunds, w)
                 == if w in db.mirrors && db.mirrors[w].status == Rejected then 1 else 0)
    && (forall c :: ReversalsOf(db.refunds, c)
                 == if c in db.canonicals && db.canonicals[c].status == CanonFailed then 1 else 0)
  }

  /** A canonical reversed by a rejection is the one bridged to the rejected mirror. */
  predicate ReversalsBridged(db: Db) {
    forall i :: 0 <= i < |db.refunds| && db.refunds[i].Reversal? && db.refunds[i].rejectedMirror.Some? ==>
      var w := db.refunds[i].rejectedMirror.value;
      w in db.mirrors && db.mirrors[w].bridge == Some(db.refunds[i].canonical)
  }

  /** Same user, same amount, created within five seconds of each other. */
  predicate SamePayout(m: Mirror, c: Canonical) {
    c.userId == m.userId && c.amount == m.amount && -5_000 <= c.createdAt - m.createdAt <= 5_000
  }

  predicate TicketOk(db: Db, t: Ticket) {
    t.w in db.mirrors &&
    match t
    case Opened(_, _) => true
    case Claiming(w, _, orphan, _) =>
      w !in db.obligations && orphan.id in db.canonicals && SamePayout(db.mirrors[w], db.canonicals[orphan.id])
    case Resolved(w, _, seen) => seen.Some? ==> db.mirrors[w].bridge == Some(seen.value.id)
    case Cleared(w, _, canonical) => canonical.Some? ==> db.mirrors[w].bridge == canonical
  }

  ghost predicate DbOk(db: Db) {
    BridgeOk(db) && db.obligations <= db.mirrors.Keys && PaidOnce(db) && ReversalsBridged(db)
  }

  ghost predicate Inv(s: System) {
    DbOk(s.db) && forall k :: 0 <= k < |s.tickets| ==> TicketOk(s.db, s.tickets[k])
  }

  // ---------------------------------------------------------------- how rows may evolve

  predicate SameIdentity(m: Mirror, m': Mirror) {
    m'.userId == m.userId && m'.amount == m.amount && m'.createdAt == m.createdAt
  }

  predicate SameMoney(c: Canonical, c': Canonical) {
    c'.userId == c.userId && c'.amount == c.amount && c'.fee == c.fee && c'.createdAt == c.createdAt
  }

  /** The bridge is write-once, rows never vanish, amounts and references are fixed, terminal states are final. */
  predicate Evolves(db: Db, db': Db) {
    && (forall w :: w in db.mirrors ==>
          && w in db'.mirrors
          && (db.mirrors[w].bridge.Some? ==> db'.mirrors[w].bridge == db.mirrors[w].bridge)
          && SameIdentity(db.mirrors[w], db'.mirrors[w])
          && (Terminal(db.mirrors[w].status) ==> db'.mirrors[w].status == db.mirrors[w].status))
    && (forall c :: c in db.canonicals ==>
          && c in db'.canonicals
          && db'.canonicals[c].reference == db.canonicals[c].reference
          && SameMoney(db.canonicals[c], db'.canonicals[c])
          && (db.canonicals[c].status != CanonPending ==> db'.canonicals[c].status == db.canonicals[c].status))
    && (forall w :: w in db'.obligations && w in db.mirrors ==> w in db.obligations)
    && db.refunds <= db'.refunds
  }

  lemma TicketSurvives(db: Db, db': Db, t: Ticket)
    requires TicketOk(db, t) && Evolves(db, db')
    ensures TicketOk(db', t)
  {
  }

  lemma EvolvesTransitive(a: Db, b: Db, c: Db)
    requires Evolves(a, b) && Evolves(b, c)
    ensures Evolves(a, c)
  {
  }

  // ---------------------------------------------------------------- the parts of the invariant about tables

  lemma ReverseOk(db: Db, c: int)
    requires DbOk(db)
    ensures var r := Reverse(db, c, None); r.Ok? ==> DbOk(r.value) && Evolves(db, r.value)
  {
    var r := Reverse(db, c, None);
    if r.Ok? {
      CountsAppend(db.refunds, r.value.refunds[|db.refunds|]);
      assert r.value.refunds == db.refunds + [r.value.refunds[|db.refunds|]];
    }
  }

  /** Rows that money does not depend on may change freely. */
  lemma SideTablesOk(db: Db, db': Db)
    requires DbOk(db)
    requires db'.mirrors == db.mirrors && db'.canonicals == db.canonicals && db'.refunds == db.refunds
    requires db'.obligations <= db.obligations
    ensures DbOk(db') && Evolves(db, db')
  {
  }

  lemma SetStatusOk(db: Db, w: int, status: MirrorStatus)
    requires DbOk(db) && w in db.mirrors && !Terminal(db.mirrors[w].status) && status != Rejected
    ensures DbOk(SetStatus(db, w, status)) && Evolves(db, SetStatus(db, w, status))
  {
  }

  lemma CanonicalWriteOk(db: Db, c: int, row: Canonical)
    requires DbOk(db)
    requires if c in db.canonicals then row.reference == db.canonicals[c].reference && SameMoney(db.canonicals[c], row)
                                        && (row.status == db.canonicals[c].status
                                            || (db.canonicals[c].status == CanonPending && row.status != CanonFailed))
             else row.status == CanonPending
    ensures var db' := db.(canonicals := db.canonicals[c := row]); DbOk(db') && Evolves(db, db')
  {
  }

  lemma CreateOk(db: Db, step: Step)
    requires DbOk(db) && step.NewMirror?
    ensures DbOk(Create(db, step)) && Evolves(db, Create(db, step))
  {
    var db' := Create(db, step);
    assert BridgeOk(db');
    assert PaidOnce(db');
  }

  lemma RowWriteOk(db: Db, step: Step)
    requires DbOk(db) && (step.NewCanonical? || step.WriteOwner? || step.Settle?)
    ensures Environment(db, step) == db || (DbOk(Environment(db, step)) && Evolves(db, Environment(db, step)))
  {
    var db' := Environment(db, step);
    if db' != db {
      match step
      case NewCanonical(c, row) => CanonicalWriteOk(db, c, row);
      case WriteOwner(c, owner) => CanonicalWriteOk(db, c, db.canonicals[c].(owner := Some(owner)));
      case Settle(c, outcome) => CanonicalWriteOk(db, c, db.canonicals[c].(status := outcome));
    }
  }

  lemma {:induction false} EnvironmentOk(db: Db, step: Step)
    requires DbOk(db)
    ensures DbOk(Environment(db, step)) && Evolves(db, Environment(db, step))
  {
    SideTablesOk(db, db);
    if step.NewMirror? {
      CreateOk(db, step);
    } else if step.NewCanonical? || step.WriteOwner? || step.Settle? {
      RowWriteOk(db, step);
    } else if step.Move? {
      if step.moved in db.mirrors && LegalMove(db.mirrors[step.moved].status, step.to) {
        SetStatusOk(db, step.moved, step.to);
      }
    } else if step.ProviderFailed? {
      ReverseOk(db, step.failedC);
    } else {
      SideTablesOk(db, Environment(db, step));
    }
  }

  lemma ClaimOk(db: Db, w: int, c: int)
    requires DbOk(db) && w in db.mirrors && c in db.canonicals
    ensures DbOk(Claim(db, w, c)) && Evolves(db, Claim(db, w, c))
    ensures ClaimWins(db, w, c) ==> Claim(db, w, c).mirrors[w].bridge == Some(c)
  {
    if ClaimWins(db, w, c) && db.mirrors[w].bridge.None? {
      forall v | v in db.mirrors && v != w
        ensures db.mirrors[v].bridge != Some(c)
      {
        if db.mirrors[v].bridge.Some? {
          assert db.mirrors[v].bridge.value in Linked(db);
        }
      }
    }
  }

  /** What a mirror-only rejection did, if it did anything. */
  predicate RejectedMirror(db: Db, db': Db, w: int, review: bool) {
    && w in db.mirrors && Claimable(db.mirrors[w].status, review)
    && db'.mirrors == db.mirrors[w := db.mirrors[w].(status := Rejected)]
    && db'.canonicals == db.canonicals && db'.obligations == db.obligations - {w}
    && db'.refunds == db.refunds + [LegacyRefund(w, db.mirrors[w].amount)]
  }

  /** What a canonical-path rejection did, if it did anything. */
  predicate RejectedPair(db: Db, db': Db, w: int, review: bool, c: int) {
    && w in db.mirrors && c in db.canonicals
    && Claimable(db.mirrors[w].status, review) && db.canonicals[c].status == CanonPending
    && db'.mirrors == db.mirrors[w := db.mirrors[w].(status := Rejected)]
    && db'.canonicals == db.canonicals[c := db.canonicals[c].(status := CanonFailed)]
    && db'.obligations == db.obligations
    && db'.refunds == db.refunds + [Reversal(c, Some(w), db.canonicals[c].amount + db.canonicals[c].fee)]
  }

  lemma LegacyCommit(db: Db, w: int, review: bool)
    ensures var r := CommitReject(db, w, review, None); r.Ok? ==> RejectedMirror(db, r.value, w, review)
  {
  }

  lemma CanonicalCommit(db: Db, w: int, review: bool, c: int)
    ensures var r := CommitReject(db, w, review, Some(c)); r.Ok? ==> RejectedPair(db, r.value, w, review, c)
  {
  }

  /** A status change, with canonicals at most added to, keeps the bridge. */
  lemma BridgeKept(db: Db, db': Db, w: int)
    requires BridgeOk(db) && w in db.mirrors && db.canonicals.Keys <= db'.canonicals.Keys
    requires db'.mirrors == db.mirrors[w := db.mirrors[w].(status := Rejected)]
    ensures BridgeOk(db')
  {
    assert forall v :: v in db'.mirrors ==> v in db.mirrors && db'.mirrors[v].bridge == db.mirrors[v].bridge;
  }

  lemma LegacyPaid(db: Db, db': Db, w: int, review: bool)
    requires PaidOnce(db) && RejectedMirror(db, db', w, review)
    ensures PaidOnce(db')
  {
    CountsAppend(db.refunds, LegacyRefund(w, db.mirrors[w].amount));
  }

  lemma PairPaid(db: Db, db': Db, w: int, review: bool, c: int)
    requires PaidOnce(db) && RejectedPair(db, db', w, review, c)
    ensures PaidOnce(db')
  {
    CountsAppend(db.refunds, Reversal(c, Some(w), db.canonicals[c].amount + db.canonicals[c].fee));
  }

  lemma ReversalsKept(db: Db, db': Db, w: int, r: Refund)
    requires ReversalsBridged(db) && w in db.mirrors && db'.refunds == db.refunds + [r]
    requires db'.mirrors == db.mirrors[w := db.mirrors[w].(status := Rejected)]
    requires r.Reversal? ==> r.rejectedMirror == Some(w) && db.mirrors[w].bridge == Some(r.canonical)
    ensures ReversalsBridged(db')
  {
  }

  lemma LegacyEvolves(db: Db, db': Db, w: int, review: bool)
    requires RejectedMirror(db, db', w, review)
    ensures Evolves(db, db')
  {
  }

  lemma PairEvolves(db: Db, db': Db, w: int, review: bool, c: int)
    requires RejectedPair(db, db', w, review, c)
    ensures Evolves(db, db')
  {
  }

  lemma LegacyRejectOk(db: Db, db': Db, w: int, review: bool)
    requires DbOk(db) && RejectedMirror(db, db', w, review)
    ensures DbOk(db') && Evolves(db, db')
  {
    BridgeKept(db, db', w);
    LegacyPaid(db, db', w, review);
    ReversalsKept(db, db', w, LegacyRefund(w, db.mirrors[w].amount));
    LegacyEvolves(db, db', w, review);
  }

  lemma CanonicalRejectOk(db: Db, db': Db, w: int, review: bool, c: int)
    requires DbOk(db) && RejectedPair(db, db', w, review, c) && db.mirrors[w].bridge == Some(c)
    ensures DbOk(db') && Evolves(db, db')
  {
    BridgeKept(db, db', w);
    PairPaid(db, db', w, review, c);
    ReversalsKept(db, db', w, Reversal(c, Some(w), db.canonicals[c].amount + db.canonicals[c].fee));
    PairEvolves(db, db', w, review, c);
  }

  lemma {:induction false} RejectOk(db: Db, w: int, review: bool, canonical: Option<int>)
    requires DbOk(db)
    requires canonical.Some? ==> w in db.mirrors && db.mirrors[w].bridge == canonical
    ensures var r := CommitReject(db, w, review, canonical); r.Ok? ==> DbOk(r.value) && Evolves(db, r.value)
  {
    var r := CommitReject(db, w, review, canonical);
    if r.Ok? {
      match canonical
      case None => LegacyCommit(db, w, review); LegacyRejectOk(db, r.value, w, review);
      case Some(c) => CanonicalCommit(db, w, review, c); CanonicalRejectOk(db, r.value, w, review, c);
    }
  }

  lemma EscalateOk(db: Db, w: int)
    requires DbOk(db)
    ensures var r := CommitEscalate(db, w); r.Ok? ==> DbOk(r.value) && Evolves(db, r.value)
  {
    var r := CommitEscalate(db, w);
    if r.Ok? {
      SetStatusOk(db, w, Processing);
      SideTablesOk(SetStatus(db, w, Processing), r.value);
      EvolvesTransitive(db, SetStatus(db, w, Processing), r.value);
    }
  }

  lemma ResolveNowOk(db: Db, w: int, page: set<int>)
    requires DbOk(db) && w in db.mirrors && IsPage(db, db.mirrors[w], page)
    ensures var (resolved, canonical) := ResolveNow(db, w, page);
            && DbOk(resolved) && Evolves(db, resolved)
            && (canonical.Some? ==> resolved.mirrors[w].bridge == canonical)
            && resolved.mirrors[w].status == db.mirrors[w].status
  {
    match ResolveRead(db, w, page)
    case Adopt(c) => ClaimOk(db, w, c);
    case _ =>
  }

  /** When resolution finds nothing the row stays unbridged. */
  lemma ResolvedBridge(db: Db, w: int, page: set<int>)
    requires DbOk(db) && w in db.mirrors && IsPage(db, db.mirrors[w], page)
    ensures var (resolved, canonical) := ResolveNow(db, w, page); resolved.mirrors[w].bridge == canonical
  {
  }

  lemma DecideTouchesOne(db: Db, v: int, decision: Decision, canonical: Option<int>, w: int)
    requires w in db.mirrors && v != w && (canonical.Some? ==> canonical.value in db.canonicals)
    ensures var db' := Decide(db, v, decision, canonical); w in db'.mirrors && db'.mirrors[w] == db.mirrors[w]
  {
  }

  lemma ReviewTouchesOne(db: Db, v: int, decision: Decision, page: set<int>, w: int)
    requires w in db.mirrors && v != w
    ensures var db' := ReviewNow(db, v, decision, page); w in db'.mirrors && db'.mirrors[w] == db.mirrors[w]
  {
    if v in db.mirrors && db.mirrors[v].status == NeedsReview && IsPage(db, db.mirrors[v], page) {
      var (resolved, canonical) := ResolveNow(db, v, page);
      assert w in resolved.mirrors && resolved.mirrors[w] == db.mirrors[w];
      DecideTouchesOne(resolved, v, decision, canonical, w);
    }
  }

  lemma {:induction false} DecideOk(db: Db, w: int, decision: Decision, canonical: Option<int>)
    requires DbOk(db)
    requires canonical.Some? ==> w in db.mirrors && db.mirrors[w].bridge == canonical
    ensures DbOk(Decide(db, w, decision, canonical)) && Evolves(db, Decide(db, w, decision, canonical))
  {
    match decision
    case Escalate => EscalateOk(db, w);
    case RejectIt => RejectOk(db, w, true, canonical);
    case Resume =>
      if Decide(db, w, decision, canonical) != db {
        SetStatusOk(db, w, Pending);
      }
  }

  lemma {:induction false} ReviewOk(db: Db, w: int, decision: Decision, page: set<int>)
    requires DbOk(db)
    ensures DbOk(ReviewNow(db, w, decision, page)) && Evolves(db, ReviewNow(db, w, decision, page))
  {
    if w in db.mirrors && db.mirrors[w].status == NeedsReview && IsPage(db, db.mirrors[w], page) {
      var (resolved, canonical) := ResolveNow(db, w, page);
      ResolveNowOk(db, w, page);
      DecideOk(resolved, w, decision, canonical);
      EvolvesTransitive(db, resolved, ReviewNow(db, w, decision, page));
    }
  }

  lemma ResumeOk(db: Db, w: int)
    requires DbOk(db)
    ensures var r := CommitResume(db, w); r.Ok? ==> DbOk(r.value) && Evolves(db, r.value)
  {
    if CommitResume(db, w).Ok? {
      SetStatusOk(db, w, Pending);
    }
  }

  predicate IsRead(step: Step) {
    step.Open? || step.Pick? || step.Resolve? || step.Clear?
  }

  /** Reads leave the tables alone. */
  lemma ReadsKeepDb(s: System, step: Step)
    requires IsRead(step)
    ensures Next(s, step).db == s.db
  {
  }

  lemma ClaimTicketOk(s: System, k: nat)
    requires Inv(s) && k < |s.tickets| && s.tickets[k].Claiming?
    ensures var db' := ClaimTicket(s, s.tickets[k]).db; DbOk(db') && Evolves(s.db, db')
  {
    assert TicketOk(s.db, s.tickets[k]);
    ClaimOk(s.db, s.tickets[k].w, s.tickets[k].orphan.id);
  }

  lemma RejectStepOk(s: System, step: Step)
    requires Inv(s) && step.FinishReject?
    ensures Next(s, step).db == s.db || (DbOk(Next(s, step).db) && Evolves(s.db, Next(s, step).db))
  {
    if step.k < |s.tickets| && s.tickets[step.k].Cleared? {
      var t := s.tickets[step.k];
      assert TicketOk(s.db, t);
      RejectOk(s.db, t.w, t.review, t.canonical);
    }
  }

  lemma ReviewStepOk(s: System, step: Step)
    requires Inv(s) && (step.FinishResume? || step.FinishEscalate?)
    ensures Next(s, step).db == s.db || (DbOk(Next(s, step).db) && Evolves(s.db, Next(s, step).db))
  {
    if step.k < |s.tickets| {
      ResumeOk(s.db, s.tickets[step.k].w);
      EscalateOk(s.db, s.tickets[step.k].w);
    }
  }

  /** The commits of the handlers: claim, rejection, resume and escalation. */
  lemma {:induction false} CommitOk(s: System, step: Step)
    requires Inv(s) && (step.ClaimOrphan? || step.FinishReject? || step.FinishResume? || step.FinishEscalate?)
    ensures Next(s, step).db == s.db || (DbOk(Next(s, step).db) && Evolves(s.db, Next(s, step).db))
  {
    if step.ClaimOrphan? {
      if step.k < |s.tickets| && s.tickets[step.k].Claiming? {
        ClaimTicketOk(s, step.k);
      }
    } else if step.FinishReject? {
      RejectStepOk(s, step);
    } else {
      ReviewStepOk(s, step);
    }
  }

  lemma {:induction false} NextDbOk(s: System, step: Step)
    requires Inv(s)
    ensures DbOk(Next(s, step).db) && Evolves(s.db, Next(s, step).db)
  {
    SideTablesOk(s.db, s.db);
    if IsRead(step) {
      ReadsKeepDb(s, step);
    } else if step.ClaimOrphan? || step.FinishReject? || step.FinishResume? || step.FinishEscalate? {
      CommitOk(s, step);
    } else if step.Review? {
      ReviewOk(s.db, step.reviewedW, step.decision, step.reviewPage);
    } else {
      EnvironmentOk(s.db, step);
    }
  }

  /** At most one ticket is handed out, and it is good for the tables it came from. */
  predicate GivesGoodTicket(s: System, s': System) {
    && s.tickets <= s'.tickets && |s'.tickets| <= |s.tickets| + 1
    && (|s'.tickets| > |s.tickets| ==> TicketOk(s'.db, s'.tickets[|s.tickets|]))
  }

  lemma ClaimGivesGood(s: System, k: nat)
    requires Inv(s) && k < |s.tickets|
    ensures GivesGoodTicket(s, ClaimTicket(s, s.tickets[k]))
  {
    if s.tickets[k].Claiming? {
      assert TicketOk(s.db, s.tickets[k]);
      ClaimOk(s.db, s.tickets[k].w, s.tickets[k].orphan.id);
    }
  }

  lemma ReadGivesGood(s: System, step: Step)
    requires Inv(s) && IsRead(step)
    ensures GivesGoodTicket(s, Next(s, step))
  {
    if step.Clear? && step.k < |s.tickets| {
      assert TicketOk(s.db, s.tickets[step.k]);
    }
  }

  lemma NewTicketOk(s: System, step: Step)
    requires Inv(s)
    ensures GivesGoodTicket(s, Next(s, step))
  {
    if IsRead(step) {
      ReadGivesGood(s, step);
    } else if step.ClaimOrphan? {
      if step.k < |s.tickets| {
        ClaimGivesGood(s, step.k);
      }
    } else {
      assert Next(s, step).tickets == s.tickets;
    }
  }

  predicate TicketsOk(s: System) {
    forall k :: 0 <= k < |s.tickets| ==> TicketOk(s.db, s.tickets[k])
  }

  lemma TicketsKept(s: System, s': System)
    requires TicketsOk(s) && Evolves(s.db, s'.db) && GivesGoodTicket(s, s')
    ensures TicketsOk(s')
  {
    forall k | 0 <= k < |s'.tickets|
      ensures TicketOk(s'.db, s'.tickets[k])
    {
      if k < |s.tickets| {
        assert s'.tickets[k] == s.tickets[k];
        TicketSurvives(s.db, s'.db, s.tickets[k]);
      }
    }
  }

  lemma {:induction false} NextKeepsInv(s: System, step: Step)
    requires Inv(s)
    ensures Inv(Next(s, step))
  {
    NextDbOk(s, step);
    NewTicketOk(s, step);
    TicketsKept(s, Next(s, step));
  }

  // ---------------------------------------------------------------- theorems over whole runs

  lemma {:induction false} RunKeepsInv(s: System, steps: seq<Step>)
    requires Inv(s)
    ensures Inv(Run(s, steps))
  {
    if steps != [] {
      RunKeepsInv(s, steps[..|steps| - 1]);
      NextKeepsInv(Run(s, steps[..|steps| - 1]), steps[|steps| - 1]);
    }
  }

  lemma {:induction false} Reachable(steps: seq<Step>)
    ensures Inv(Run(INITIAL, steps))
  {
    RunKeepsInv(INITIAL, steps);
  }

  /** One more step, spelled out: how a concrete run is built. */
  lemma Extend(steps: seq<Step>, s: System, step: Step, s': System) returns (longer: seq<Step>)
    requires Run(INITIAL, steps) == s && Next(s, step) == s'
    ensures longer == steps + [step] && Run(INITIAL, longer) == s'
  {
    longer := steps + [step];
    assert longer[..|steps|] == steps;
  }

  /** Under every interleaving a rejection refunds a withdrawal once if REJECTED, else never; likewise reversals. */
  lemma {:induction false} RefundAtMostOnce(steps: seq<Step>, w: int, c: int)
    ensures var db := Run(INITIAL, steps).db;
            && RejectionsOf(db.refunds, w) == (if w in db.mirrors && db.mirrors[w].status == Rejected then 1 else 0)
            && ReversalsOf(db.refunds, c)
               == (if c in db.canonicals && db.canonicals[c].status == CanonFailed then 1 else 0)
  {
    Reachable(steps);
  }

  /** From any reachable state on: bridges are write-once, terminal rows stay, refunds are only appended. */
  lemma {:induction false} RunEvolves(s: System, steps: seq<Step>)
    requires Inv(s)
    ensures Evolves(s.db, Run(s, steps).db)
  {
    if steps != [] {
      var mid := Run(s, steps[..|steps| - 1]);
      RunEvolves(s, steps[..|steps| - 1]);
      RunKeepsInv(s, steps[..|steps| - 1]);
      NextDbOk(mid, steps[|steps| - 1]);
      EvolvesTransitive(s.db, mid.db, Run(s, steps).db);
    }
  }

  /** Bridge identity: injective in every reachable state, and rejections only ever reverse the bridged row. */
  lemma {:induction false} BridgeIdentity(steps: seq<Step>)
    ensures BridgeOk(Run(INITIAL, steps).db) && ReversalsBridged(Run(INITIAL, steps).db)
  {
    Reachable(steps);
  }

  lemma EnvironmentKeepsBridge(db: Db, step: Step, w: int)
    requires w in db.mirrors
    ensures w in Environment(db, step).mirrors && Environment(db, step).mirrors[w].bridge == db.mirrors[w].bridge
  {
  }

  lemma DecideKeepsBridge(db: Db, v: int, decision: Decision, canonical: Option<int>, w: int)
    requires canonical.Some? ==> canonical.value in db.canonicals
    requires w in db.mirrors
    ensures var db' := Decide(db, v, decision, canonical);
            w in db'.mirrors && db'.mirrors[w].bridge == db.mirrors[w].bridge
  {
  }

  lemma ReviewKeepsOwner(db: Db, v: int, decision: Decision, page: set<int>, w: int)
    requires w in db.mirrors && w in db.obligations && db.mirrors[w].bridge.None?
    ensures var db' := ReviewNow(db, v, decision, page); w in db'.mirrors && db'.mirrors[w].bridge.None?
  {
    if v in db.mirrors && db.mirrors[v].status == NeedsReview && IsPage(db, db.mirrors[v], page) {
      var (resolved, canonical) := ResolveNow(db, v, page);
      assert resolved.mirrors[w].bridge.None?;
      DecideKeepsBridge(resolved, v, decision, canonical, w);
    }
  }

  lemma CommitsKeepBridge(db: Db, v: int, review: bool, canonical: Option<int>, w: int)
    requires w in db.mirrors
    ensures forall r :: r == CommitReject(db, v, review, canonical) || r == CommitResume(db, v)
                        || r == CommitEscalate(db, v) ==>
              r.Ok? ==> w in r.value.mirrors && r.value.mirrors[w].bridge == db.mirrors[w].bridge
  {
  }

  lemma {:induction false} NextKeepsOwner(s: System, step: Step, w: int)
    requires forall k :: 0 <= k < |s.tickets| ==> TicketOk(s.db, s.tickets[k])
    requires w in s.db.mirrors && s.db.mirrors[w].bridge.None? && w in s.db.obligations
    ensures w in Next(s, step).db.mirrors && Next(s, step).db.mirrors[w].bridge.None?
  {
    if IsRead(step) {
      ReadsKeepDb(s, step);
    } else if step.ClaimOrphan? {
      if step.k < |s.tickets| {
        assert TicketOk(s.db, s.tickets[step.k]);
      }
    } else if step.FinishReject? {
      if step.k < |s.tickets| && s.tickets[step.k].Cleared? {
        CommitsKeepBridge(s.db, s.tickets[step.k].w, s.tickets[step.k].review, s.tickets[step.k].canonical, w);
      }
    } else if step.FinishResume? || step.FinishEscalate? {
      if step.k < |s.tickets| {
        CommitsKeepBridge(s.db, s.tickets[step.k].w, true, None, w);
      }
    } else if step.Review? {
      ReviewKeepsOwner(s.db, step.reviewedW, step.decision, step.reviewPage, w);
    } else {
      EnvironmentKeepsBridge(s.db, step, w);
    }
  }

  /** A withdrawal that still owns an active obligation never gains a bridge, however stale the claim's reads. */
  lemma OwnerNeverAdopts(steps: seq<Step>, step: Step, w: int)
    requires var s := Run(INITIAL, steps);
             w in s.db.mirrors && s.db.mirrors[w].bridge.None? && w in s.db.obligations
    ensures var s' := Next(Run(INITIAL, steps), step); w in s'.db.mirrors && s'.db.mirrors[w].bridge.None?
  {
    Reachable(steps);
    NextKeepsOwner(Run(INITIAL, steps), step, w);
  }

  /** A canonical-path rejection moves mirror and canonical together, on the bridged pair, or moves nothing. */
  lemma CanonicalRejectionIsAtomic(steps: seq<Step>, k: nat)
    requires var s := Run(INITIAL, steps);
             k < |s.tickets| && s.tickets[k].Cleared? && s.tickets[k].canonical.Some?
    ensures var s := Run(INITIAL, steps);
            var s' := Next(s, FinishReject(k));
            var (w, c) := (s.tickets[k].w, s.tickets[k].canonical.value);
            s' == s || (s.db.mirrors[w].bridge == Some(c) && RejectedPair(s.db, s'.db, w, s.tickets[k].review, c))
  {
    var s := Run(INITIAL, steps);
    var t := s.tickets[k];
    Reachable(steps);
    assert TicketOk(s.db, t);
    CanonicalCommit(s.db, t.w, t.review, t.canonical.value);
  }
}
