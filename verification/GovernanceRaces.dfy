/**
 Governance with each handler split into its reads and its commit. The commits of `castVote`,
 `finalizeProposal` and `executeProposal` name the row by id alone, so what was read may be stale
 when they land. This module says what holds regardless, and exactly when the lifecycle survives.
 */
module GovernanceRaces {
  import opened Common
  import opened Governance

  /** What a handler decided from its reads and is about to write. */
  datatype Ticket =
    | ToCast(vote: Vote)
    | ToFinalize(p: nat, verdict: Status, readyAt: Option<int>, final: Final)
    | ToExecute(p: nat, at: int)

  datatype System = System(state: State, tickets: seq<Ticket>)

  datatype Step =
    | Propose(user: int, balance: int, days: int, now: int)
    | StartCast(p: nat, user: int, choice: Choice, balance: int, now: int)
    | StartFinalize(p: nat, supply: int, now: int)
    | StartExecute(p: nat, now: int)
    | Commit(k: nat)

  function ReadyAt(verdict: Status, at: int): Option<int> {
    if verdict == Passed then Some(at + TIMELOCK) else None
  }

  function CastTicket(p: nat, user: int, choice: Choice, balance: int): Ticket {
    ToCast(Vote(p, user, choice, Min(balance, MAX_POWER)))
  }

  function FinalizeTicket(s: State, p: nat, supply: int, now: int): Ticket
    requires p < |s.proposals|
  {
    var verdict := Verdict(s.proposals[p], supply);
    ToFinalize(p, verdict, ReadyAt(verdict, now), Final(now, supply))
  }

  /** The vote row and its tally; the unique index rolls a second vote back. */
  function CommitCast(s: State, v: Vote): State {
    if v.proposal >= |s.proposals| || HasVoted(s.votes, v.proposal, v.user) then s
    else s.(votes := s.votes + [v],
            proposals := s.proposals[v.proposal := Tally(s.proposals[v.proposal], v.choice, v.power)])
  }

  function CommitFinalize(s: State, p: nat, verdict: Status, readyAt: Option<int>, final: Final): State {
    if p >= |s.proposals| then s
    else s.(proposals := s.proposals[p := s.proposals[p].(status := verdict, readyAt := readyAt)],
            finals := s.finals[p := final])
  }

  function CommitExecute(s: State, p: nat, at: int): State {
    if p >= |s.proposals| then s
    else s.(proposals := s.proposals[p := s.proposals[p].(status := Executed, executedAt := Some(at))])
  }

  function CommitTicket(s: State, t: Ticket): State {
    match t
    case ToCast(v) => CommitCast(s, v)
    case ToFinalize(p, verdict, readyAt, final) => CommitFinalize(s, p, verdict, readyAt, final)
    case ToExecute(p, at) => CommitExecute(s, p, at)
  }

  function Give(s: System, granted: bool, t: Ticket): System {
    if granted then s.(tickets := s.tickets + [t]) else s
  }

  function Next(s: System, step: Step): System {
    match step
    case Propose(user, balance, days, now) =>
      var r := Create(s.state, user, balance, days, now);
      if r.Ok? then s.(state := r.value) else s
    case StartCast(p, user, choice, balance, now) =>
      Give(s, Cast(s.state, p, user, choice, balance, now).Ok?, CastTicket(p, user, choice, balance))
    case StartFinalize(p, supply, now) =>
      if Finalize(s.state, p, supply, now).Ok? then Give(s, true, FinalizeTicket(s.state, p, supply, now)) else s
    case StartExecute(p, now) => Give(s, Execute(s.state, p, now).Ok?, ToExecute(p, now))
    case Commit(k) => if k < |s.tickets| then s.(state := CommitTicket(s.state, s.tickets[k])) else s
  }

  function Run(s: System, steps: seq<Step>): System {
    if steps == [] then s else Next(Run(s, steps[..|steps| - 1]), steps[|steps| - 1])
  }

  const START: System := System(EMPTY, [])

  /** A handler whose commit follows its reads at once is the handler as one step. */
  lemma CommitAtOnce(s: State, step: Governance.Step)
    requires Outcome(s, step).Ok? && !step.DoCreate?
    ensures var t := match step
                     case DoCast(p, user, choice, balance, _) => CastTicket(p, user, choice, balance)
                     case DoFinalize(p, supply, now) => FinalizeTicket(s, p, supply, now)
                     case DoExecute(p, now) => ToExecute(p, now);
            CommitTicket(s, t) == Outcome(s, step).value
  {
  }

  // ---------------------------------------------------------------- what holds however stale the reads

  predicate TicketOk(s: State, t: Ticket) {
    match t
    case ToCast(v) => v.proposal < |s.proposals| && 0 < v.power <= MAX_POWER
    case ToFinalize(p, verdict, readyAt, final) =>
      p < |s.proposals| && verdict != Active && verdict != Executed && readyAt == ReadyAt(verdict, final.at)
      && final.at >= s.proposals[p].endsAt
    case ToExecute(p, _) => p < |s.proposals|
  }

  predicate Tallied(s: State) {
    VotesOk(s) && forall p :: 0 <= p < |s.proposals| ==> TallyOk(s, p)
  }

  predicate Sound(s: System) {
    Tallied(s.state) && forall k :: 0 <= k < |s.tickets| ==> TicketOk(s.state, s.tickets[k])
  }

  /** Proposals stay, and so do their deadlines. */
  predicate DeadlinesStay(s: State, s': State) {
    |s.proposals| <= |s'.proposals|
    && forall p :: 0 <= p < |s.proposals| ==> s'.proposals[p].endsAt == s.proposals[p].endsAt
  }

  lemma CastTallied(s: State, v: Vote)
    requires Tallied(s) && TicketOk(s, ToCast(v))
    ensures Tallied(CommitCast(s, v))
  {
    var s' := CommitCast(s, v);
    if s' != s {
      forall q | 0 <= q < |s'.proposals|
        ensures TallyOk(s', q)
      {
        assert TallyOk(s, q);
        PowerAppend(s.votes, v, q, For);
        PowerAppend(s.votes, v, q, Against);
        PowerAppend(s.votes, v, q, Abstain);
      }
    }
  }

  lemma StatusTallied(s: State, t: Ticket)
    requires Tallied(s) && !t.ToCast?
    ensures Tallied(CommitTicket(s, t))
  {
    var s' := CommitTicket(s, t);
    forall q | 0 <= q < |s'.proposals|
      ensures TallyOk(s', q)
    {
      assert TallyOk(s, q);
    }
  }

  lemma ProposeTallied(s: State, user: int, balance: int, days: int, now: int)
    requires Tallied(s) && Create(s, user, balance, days, now).Ok?
    ensures Tallied(Create(s, user, balance, days, now).value)
  {
    var s' := Create(s, user, balance, days, now).value;
    NoVotesYet(s.votes, |s.proposals|, For);
    NoVotesYet(s.votes, |s.proposals|, Against);
    NoVotesYet(s.votes, |s.proposals|, Abstain);
    forall q | 0 <= q < |s.proposals|
      ensures TallyOk(s', q)
    {
      assert TallyOk(s, q);
    }
  }

  lemma NextTallied(s: System, step: Step)
    requires Sound(s)
    ensures Tallied(Next(s, step).state) && DeadlinesStay(s.state, Next(s, step).state)
  {
    match step
    case Propose(user, balance, days, now) =>
      if Create(s.state, user, balance, days, now).Ok? {
        ProposeTallied(s.state, user, balance, days, now);
      }
    case Commit(k) =>
      if k < |s.tickets| {
        assert TicketOk(s.state, s.tickets[k]);
        match s.tickets[k]
        case ToCast(v) => CastTallied(s.state, v);
        case _ => StatusTallied(s.state, s.tickets[k]);
      }
    case _ =>
  }

  lemma NextSound(s: System, step: Step)
    requires Sound(s)
    ensures Sound(Next(s, step))
  {
    var s' := Next(s, step);
    NextTallied(s, step);
    forall k | 0 <= k < |s'.tickets|
      ensures TicketOk(s'.state, s'.tickets[k])
    {
      if k < |s.tickets| {
        assert s'.tickets[k] == s.tickets[k] && TicketOk(s.state, s.tickets[k]);
      }
    }
  }

  lemma {:induction false} RunSound(steps: seq<Step>)
    ensures Sound(Run(START, steps))
  {
    if steps != [] {
      RunSound(steps[..|steps| - 1]);
      NextSound(Run(START, steps[..|steps| - 1]), steps[|steps| - 1]);
    }
  }

  /** Under every interleaving tallies are the sums of the vote rows, one capped row per user and proposal. */
  lemma {:induction false} TalliesMatchAnyway(steps: seq<Step>)
    ensures Tallied(Run(START, steps).state)
  {
    RunSound(steps);
  }

  // ---------------------------------------------------------------- the lifecycle

  predicate SameFinal(s: State, s': State, p: nat) {
    (p in s'.finals <==> p in s.finals) && (p in s.finals ==> s'.finals[p] == s.finals[p])
  }

  /** What may become of a proposal: nothing, votes while ACTIVE, a rightful close, a rightful execution. */
  predicate LawfulRow(s: State, s': State, p: nat)
    requires p < |s.proposals| && p < |s'.proposals|
  {
    var (q, q') := (s.proposals[p], s'.proposals[p]);
    || (q' == q && SameFinal(s, s', p))
    || (q.status == Active && q'.status == Active && SameFinal(s, s', p))
    || (&& q.status == Active && p in s'.finals && s'.finals[p].at >= q.endsAt
        && var verdict := Verdict(q, s'.finals[p].supply);
        q' == q.(status := verdict, readyAt := ReadyAt(verdict, s'.finals[p].at)))
    || (&& q.status == Passed && q'.executedAt.Some? && SameFinal(s, s', p)
        && q' == q.(status := Executed, executedAt := q'.executedAt)
        && (q.readyAt.Some? ==> q'.executedAt.value >= q.readyAt.value))
  }

  predicate Lawful(s: State, s': State) {
    && |s.proposals| <= |s'.proposals|
    && (forall p :: 0 <= p < |s.proposals| ==> LawfulRow(s, s', p))
    && (forall p :: |s.proposals| <= p < |s'.proposals| ==> s'.proposals[p].status == Active)
  }

  /** A check each commit could make: the row is still as its decision supposes, or already says what it writes. */
  predicate Current(s: State, t: Ticket) {
    match t
    case ToCast(v) =>
      v.proposal < |s.proposals| ==>
        HasVoted(s.votes, v.proposal, v.user) || s.proposals[v.proposal].status == Active
    case ToFinalize(p, verdict, readyAt, final) =>
      p < |s.proposals| ==>
        var q := s.proposals[p];
        || (q.status == Active && Verdict(q, final.supply) == verdict)
        || (q.status == verdict && q.readyAt == readyAt && p in s.finals && s.finals[p] == final)
    case ToExecute(p, at) =>
      p < |s.proposals| ==>
        var q := s.proposals[p];
        || (q.status == Passed && (q.readyAt.Some? ==> at >= q.readyAt.value))
        || (q.status == Executed && q.executedAt == Some(at))
  }

  lemma CastLawfulIff(s: State, v: Vote)
    requires TicketOk(s, ToCast(v))
    ensures Lawful(s, CommitCast(s, v)) <==> Current(s, ToCast(v))
  {
    var s' := CommitCast(s, v);
    if !HasVoted(s.votes, v.proposal, v.user) && s.proposals[v.proposal].status != Active {
      assert s'.proposals[v.proposal].totalPower != s.proposals[v.proposal].totalPower;
      assert !LawfulRow(s, s', v.proposal);
    }
  }

  lemma FinalizeLawfulIff(s: State, t: Ticket)
    requires TicketOk(s, t) && t.ToFinalize?
    ensures Lawful(s, CommitTicket(s, t)) <==> Current(s, t)
  {
    var s' := CommitTicket(s, t);
    assert forall p :: 0 <= p < |s.proposals| && p != t.p ==> LawfulRow(s, s', p);
    assert LawfulRow(s, s', t.p) <==> Current(s, t);
  }

  lemma ExecuteLawfulIff(s: State, t: Ticket)
    requires TicketOk(s, t) && t.ToExecute?
    ensures Lawful(s, CommitTicket(s, t)) <==> Current(s, t)
  {
    var s' := CommitTicket(s, t);
    assert forall p :: 0 <= p < |s.proposals| && p != t.p ==> LawfulRow(s, s', p);
    assert LawfulRow(s, s', t.p) <==> Current(s, t);
  }

  predicate CurrentStep(s: System, step: Step) {
    step.Commit? && step.k < |s.tickets| ==> Current(s.state, s.tickets[step.k])
  }

  lemma StepLawfulIff(s: System, step: Step)
    requires Sound(s)
    ensures Lawful(s.state, Next(s, step).state) <==> CurrentStep(s, step)
  {
    if step.Commit? && step.k < |s.tickets| {
      var t := s.tickets[step.k];
      assert TicketOk(s.state, t);
      match t
      case ToCast(v) => CastLawfulIff(s.state, v);
      case ToFinalize(_, _, _, _) => FinalizeLawfulIff(s.state, t);
      case ToExecute(_, _) => ExecuteLawfulIff(s.state, t);
    }
  }

  predicate LawfulRun(steps: seq<Step>) {
    steps == []
    || (LawfulRun(steps[..|steps| - 1])
        && Lawful(Run(START, steps[..|steps| - 1]).state, Run(START, steps).state))
  }

  predicate CurrentRun(steps: seq<Step>) {
    steps == []
    || (CurrentRun(steps[..|steps| - 1])
        && CurrentStep(Run(START, steps[..|steps| - 1]), steps[|steps| - 1]))
  }

  /**
   Over every interleaving the lifecycle is kept, votes only while ACTIVE, one close by the tallies
   of the moment, one execution after the timelock, if and only if every commit found its row
   as its decision supposed or already saying what it wrote.
   */
  lemma {:induction false} LifecycleIff(steps: seq<Step>)
    ensures LawfulRun(steps) <==> CurrentRun(steps)
  {
    if steps != [] {
      var prefix := steps[..|steps| - 1];
      LifecycleIff(prefix);
      RunSound(prefix);
      StepLawfulIff(Run(START, prefix), steps[|steps| - 1]);
    }
  }

  // ---------------------------------------------------------------- what a kept lifecycle gives

  lemma LawfulKeepsRow(s: State, s': State, p: nat)
    requires p < |s.proposals| && p < |s'.proposals| && LawfulRow(s, s', p) && ProposalOk(s, p)
    ensures ProposalOk(s', p)
  {
  }

  lemma LawfulKeepsInv(s: State, s': State)
    requires Inv(s) && Lawful(s, s') && Tallied(s')
    ensures Inv(s')
  {
    forall p | 0 <= p < |s'.proposals|
      ensures ProposalOk(s', p)
    {
      if p < |s.proposals| {
        assert ProposalOk(s, p) && LawfulRow(s, s', p);
        LawfulKeepsRow(s, s', p);
      }
    }
  }

  lemma {:induction false} LawfulRunKeepsInv(steps: seq<Step>)
    requires LawfulRun(steps)
    ensures Inv(Run(START, steps).state)
  {
    if steps != [] {
      LawfulRunKeepsInv(steps[..|steps| - 1]);
      TalliesMatchAnyway(steps);
      LawfulKeepsInv(Run(START, steps[..|steps| - 1]).state, Run(START, steps).state);
    }
  }

  /** Where every commit is current, an executed proposal ran rightly although reads and commits are apart. */
  lemma {:induction false} CurrentExecutedRightly(steps: seq<Step>, p: nat)
    requires CurrentRun(steps)
    requires p < |Run(START, steps).state.proposals| && Run(START, steps).state.proposals[p].status == Executed
    ensures RanRightly(Run(START, steps).state, p)
  {
    LifecycleIff(steps);
    LawfulRunKeepsInv(steps);
    ExecutedIsRight(Run(START, steps).state, p);
  }

  // ---------------------------------------------------------------- what stale commits do

  lemma Extend(steps: seq<Step>, s: System, step: Step, s': System) returns (longer: seq<Step>)
    requires Run(START, steps) == s && Next(s, step) == s'
    ensures longer == steps + [step] && Run(START, longer) == s'
  {
    longer := steps + [step];
    assert longer[..|steps|] == steps;
  }

  const DAY: int := 24 * HOUR

  /** One day of voting; a thousand AZM in favour, perhaps two thousand against. */
  function Motion(status: Status, against: int, ready: bool, ran: bool): Proposal {
    Proposal(1, DAY, status, 1_000 * UNIT, against, 0, 1_000 * UNIT + against,
             if ready then Some(DAY + TIMELOCK) else None, if ran then Some(DAY + TIMELOCK) else None)
  }

  const YES: Vote := Vote(0, 1, For, 1_000 * UNIT)

  const NO: Vote := Vote(0, 2, Against, 2_000 * UNIT)

  const CLOSE: Ticket := ToFinalize(0, Passed, Some(DAY + TIMELOCK), Final(DAY, 0))

  const RUN: Ticket := ToExecute(0, DAY + TIMELOCK)

  const FRESH: State := State([Proposal(1, DAY, Active, 0, 0, 0, 0, None, None)], [], map[])

  const FAVOURED: State := State([Motion(Active, 0, false, false)], [YES], map[])

  const CLOSED: State := State([Motion(Passed, 0, true, false)], [YES], map[0 := Final(DAY, 0)])

  const OVERTURNED: State := State([Motion(Passed, 2_000 * UNIT, true, false)], [YES, NO], map[0 := Final(DAY, 0)])

  const FORCED: State := State([Motion(Executed, 2_000 * UNIT, true, true)], [YES, NO], map[0 := Final(DAY, 0)])

  const HELD: seq<Ticket> := [ToCast(YES), ToCast(NO), CLOSE, RUN]

  lemma VotesRead()
    ensures Next(START, Propose(1, 1_000 * UNIT, 1, 0)) == System(FRESH, [])
    ensures Next(System(FRESH, []), StartCast(0, 1, For, 1_000 * UNIT, 0)) == System(FRESH, HELD[..1])
    ensures Next(System(FRESH, HELD[..1]), Commit(0)) == System(FAVOURED, HELD[..1])
  {
  }

  lemma SecondVoteRead()
    ensures Next(System(FAVOURED, HELD[..1]), StartCast(0, 2, Against, 2_000 * UNIT, DAY))
         == System(FAVOURED, HELD[..2])
    ensures Next(System(FAVOURED, HELD[..2]), StartFinalize(0, 0, DAY)) == System(FAVOURED, HELD[..3])
  {
  }

  lemma LateCommits()
    ensures Next(System(FAVOURED, HELD[..3]), Commit(2)) == System(CLOSED, HELD[..3])
    ensures Next(System(CLOSED, HELD[..3]), Commit(1)) == System(OVERTURNED, HELD[..3])
  {
  }

  lemma ForcedThrough()
    ensures Next(System(OVERTURNED, HELD[..3]), StartExecute(0, DAY + TIMELOCK)) == System(OVERTURNED, HELD)
    ensures Next(System(OVERTURNED, HELD), Commit(3)) == System(FORCED, HELD)
  {
  }

  lemma {:induction false} VotingEnds() returns (steps: seq<Step>)
    ensures Run(START, steps) == System(FAVOURED, HELD[..3])
  {
    VotesRead();
    steps := Extend([], START, Propose(1, 1_000 * UNIT, 1, 0), System(FRESH, []));
    steps := Extend(steps, System(FRESH, []), StartCast(0, 1, For, 1_000 * UNIT, 0), System(FRESH, HELD[..1]));
    steps := Extend(steps, System(FRESH, HELD[..1]), Commit(0), System(FAVOURED, HELD[..1]));
    SecondVoteRead();
    steps := Extend(steps, System(FAVOURED, HELD[..1]), StartCast(0, 2, Against, 2_000 * UNIT, DAY),
                    System(FAVOURED, HELD[..2]));
    steps := Extend(steps, System(FAVOURED, HELD[..2]), StartFinalize(0, 0, DAY), System(FAVOURED, HELD[..3]));
  }

  /**
   A vote that was read in time lands after the proposal passed; the proposal then runs although
   twice as many votes stand against it as for it.
   */
  lemma {:induction false} LateVoteIsOverridden() returns (steps: seq<Step>)
    ensures var s := Run(START, steps).state;
            && |s.proposals| == 1 && s.proposals[0].status == Executed
            && 10 * s.proposals[0].forVotes < 6 * (s.proposals[0].forVotes + s.proposals[0].againstVotes)
            && !RanRightly(s, 0)
  {
    steps := VotingEnds();
    LateCommits();
    steps := Extend(steps, System(FAVOURED, HELD[..3]), Commit(2), System(CLOSED, HELD[..3]));
    steps := Extend(steps, System(CLOSED, HELD[..3]), Commit(1), System(OVERTURNED, HELD[..3]));
    ForcedThrough();
    steps := Extend(steps, System(OVERTURNED, HELD[..3]), StartExecute(0, DAY + TIMELOCK), System(OVERTURNED, HELD));
    steps := Extend(steps, System(OVERTURNED, HELD), Commit(3), System(FORCED, HELD));
  }

  /** Two operators read the same proposal as ready to close. */
  const TWO_CLOSES: seq<Ticket> := [ToCast(YES), CLOSE, CLOSE, RUN]

  const RAN: State := State([Motion(Executed, 0, true, true)], [YES], map[0 := Final(DAY, 0)])

  const REOPENED: State := State([Motion(Passed, 0, true, true)], [YES], map[0 := Final(DAY, 0)])

  lemma BothClose()
    ensures Next(System(FAVOURED, TWO_CLOSES[..1]), StartFinalize(0, 0, DAY)) == System(FAVOURED, TWO_CLOSES[..2])
    ensures Next(System(FAVOURED, TWO_CLOSES[..2]), StartFinalize(0, 0, DAY)) == System(FAVOURED, TWO_CLOSES[..3])
    ensures Next(System(FAVOURED, TWO_CLOSES[..3]), Commit(1)) == System(CLOSED, TWO_CLOSES[..3])
  {
  }

  lemma RunsAndReopens()
    ensures Next(System(CLOSED, TWO_CLOSES[..3]), StartExecute(0, DAY + TIMELOCK)) == System(CLOSED, TWO_CLOSES)
    ensures Next(System(CLOSED, TWO_CLOSES), Commit(3)) == System(RAN, TWO_CLOSES)
    ensures Next(System(RAN, TWO_CLOSES), Commit(2)) == System(REOPENED, TWO_CLOSES)
  {
  }

  /** A second finalization, decided before the first landed, turns an executed proposal back into a passed one. */
  lemma {:induction false} StaleCloseReopens() returns (steps: seq<Step>)
    ensures Run(START, steps).state == RAN && Next(Run(START, steps), Commit(2)).state == REOPENED
  {
    VotesRead();
    steps := Extend([], START, Propose(1, 1_000 * UNIT, 1, 0), System(FRESH, []));
    steps := Extend(steps, System(FRESH, []), StartCast(0, 1, For, 1_000 * UNIT, 0), System(FRESH, HELD[..1]));
    steps := Extend(steps, System(FRESH, HELD[..1]), Commit(0), System(FAVOURED, HELD[..1]));
    BothClose();
    assert HELD[..1] == TWO_CLOSES[..1];
    steps := Extend(steps, System(FAVOURED, TWO_CLOSES[..1]), StartFinalize(0, 0, DAY),
                    System(FAVOURED, TWO_CLOSES[..2]));
    steps := Extend(steps, System(FAVOURED, TWO_CLOSES[..2]), StartFinalize(0, 0, DAY),
                    System(FAVOURED, TWO_CLOSES[..3]));
    steps := Extend(steps, System(FAVOURED, TWO_CLOSES[..3]), Commit(1), System(CLOSED, TWO_CLOSES[..3]));
    RunsAndReopens();
    steps := Extend(steps, System(CLOSED, TWO_CLOSES[..3]), StartExecute(0, DAY + TIMELOCK),
                    System(CLOSED, TWO_CLOSES));
    steps := Extend(steps, System(CLOSED, TWO_CLOSES), Commit(3), System(RAN, TWO_CLOSES));
  }
}
