/** AZM governance: proposals, capped votes, quorum, approval threshold and timelock. Each handler is one step. */
module Governance {
  import opened Common

  const HOUR: int := 3_600_000

  const MAX_POWER: int := 100_000 * UNIT

  const MIN_TO_PROPOSE: int := 1_000 * UNIT

  const TIMELOCK: int := 48 * HOUR

  const DEFAULT_DAYS: int := 7

  datatype Choice = For | Against | Abstain

  datatype Status = Active | Passed | Rejected | Executed | Expired

  datatype Proposal = Proposal(
    proposer: int, endsAt: int, status: Status,
    forVotes: int, againstVotes: int, abstainVotes: int, totalPower: int,
    readyAt: Option<int>, executedAt: Option<int>)

  datatype Vote = Vote(proposal: nat, user: int, choice: Choice, power: int)

  /** When a proposal was finalized and how much AZM existed then. */
  datatype Final = Final(at: int, supply: int)

  /** `finals` is a record of what `finalizeProposal` observed; no handler reads it. */
  datatype State = State(proposals: seq<Proposal>, votes: seq<Vote>, finals: map<nat, Final>)

  datatype Error = NotEnoughAzm | NotFound | NotActive | VotingOver | AlreadyVoted | VotingOpen | NotPassed | Timelocked

  datatype Result<+T> = Ok(value: T) | Err(error: Error)

  function Min(x: int, y: int): int {
    if x < y then x else y
  }

  /** `createProposal`; zero or absent days mean the default period. */
  function Create(s: State, user: int, balance: int, days: int, now: int): Result<State> {
    if balance < MIN_TO_PROPOSE then Err(NotEnoughAzm)
    else
      var period := if days == 0 then DEFAULT_DAYS else days;
      Ok(s.(proposals := s.proposals
                         + [Proposal(user, now + period * 24 * HOUR, Active, 0, 0, 0, 0, None, None)]))
  }

  predicate HasVoted(votes: seq<Vote>, p: nat, user: int) {
    exists i :: 0 <= i < |votes| && votes[i].proposal == p && votes[i].user == user
  }

  function Tally(proposal: Proposal, choice: Choice, power: int): Proposal {
    var counted := proposal.(totalPower := proposal.totalPower + power);
    match choice
    case For => counted.(forVotes := proposal.forVotes + power)
    case Against => counted.(againstVotes := proposal.againstVotes + power)
    case Abstain => counted.(abstainVotes := proposal.abstainVotes + power)
  }

  /** `castVote`: one vote per user, worth the capped AZM balance. */
  function Cast(s: State, p: nat, user: int, choice: Choice, balance: int, now: int): Result<State> {
    if p >= |s.proposals| then Err(NotFound)
    else if s.proposals[p].status != Active then Err(NotActive)
    else if now > s.proposals[p].endsAt then Err(VotingOver)
    else if HasVoted(s.votes, p, user) then Err(AlreadyVoted)
    else
      var power := Min(balance, MAX_POWER);
      if power <= 0 then Err(NotEnoughAzm)
      else Ok(s.(votes := s.votes + [Vote(p, user, choice, power)],
                 proposals := s.proposals[p := Tally(s.proposals[p], choice, power)]))
  }

  function CastTotal(p: Proposal): int {
    p.forVotes + p.againstVotes + p.abstainVotes
  }

  /** Ten percent of the supply must have voted; of the decisive votes sixty percent must be in favour. */
  function Verdict(p: Proposal, supply: int): Status {
    if 10 * CastTotal(p) < supply then Expired
    else
      var decisive := p.forVotes + p.againstVotes;
      if decisive > 0 && 10 * p.forVotes >= 6 * decisive then Passed else Rejected
  }

  function Finalize(s: State, p: nat, supply: int, now: int): Result<State> {
    if p >= |s.proposals| then Err(NotFound)
    else if s.proposals[p].status != Active then Err(NotActive)
    else if now < s.proposals[p].endsAt then Err(VotingOpen)
    else
      var verdict := Verdict(s.proposals[p], supply);
      var readyAt := if verdict == Passed then Some(now + TIMELOCK) else None;
      Ok(s.(proposals := s.proposals[p := s.proposals[p].(status := verdict, readyAt := readyAt)],
            finals := s.finals[p := Final(now, supply)]))
  }

  function Execute(s: State, p: nat, now: int): Result<State> {
    if p >= |s.proposals| then Err(NotFound)
    else if s.proposals[p].status != Passed then Err(NotPassed)
    else if s.proposals[p].readyAt.Some? && now < s.proposals[p].readyAt.value then Err(Timelocked)
    else Ok(s.(proposals := s.proposals[p := s.proposals[p].(status := Executed, executedAt := Some(now))]))
  }

  // ---------------------------------------------------------------- runs

  datatype Step =
    | DoCreate(user: int, balance: int, days: int, now: int)
    | DoCast(p: nat, user: int, choice: Choice, balance: int, now: int)
    | DoFinalize(p: nat, supply: int, now: int)
    | DoExecute(p: nat, now: int)

  function Outcome(s: State, step: Step): Result<State> {
    match step
    case DoCreate(user, balance, days, now) => Create(s, user, balance, days, now)
    case DoCast(p, user, choice, balance, now) => Cast(s, p, user, choice, balance, now)
    case DoFinalize(p, supply, now) => Finalize(s, p, supply, now)
    case DoExecute(p, now) => Execute(s, p, now)
  }

  function Next(s: State, step: Step): State {
    if Outcome(s, step).Ok? then Outcome(s, step).value else s
  }

  function Run(s: State, steps: seq<Step>): State {
    if steps == [] then s else Next(Run(s, steps[..|steps| - 1]), steps[|steps| - 1])
  }

  const EMPTY: State := State([], [], map[])

  // ---------------------------------------------------------------- tallies are sums over vote rows

  function PowerFor(votes: seq<Vote>, p: nat, choice: Choice): int {
    if votes == [] then 0
    else
      var v := votes[|votes| - 1];
      PowerFor(votes[..|votes| - 1], p, choice) + if v.proposal == p && v.choice == choice then v.power else 0
  }

  function Voters(votes: seq<Vote>, p: nat): nat {
    if votes == [] then 0
    else Voters(votes[..|votes| - 1], p) + if votes[|votes| - 1].proposal == p then 1 else 0
  }

  predicate TallyOk(s: State, p: nat)
    requires p < |s.proposals|
  {
    && s.proposals[p].forVotes == PowerFor(s.votes, p, For)
    && s.proposals[p].againstVotes == PowerFor(s.votes, p, Against)
    && s.proposals[p].abstainVotes == PowerFor(s.votes, p, Abstain)
    && s.proposals[p].totalPower == CastTotal(s.proposals[p])
  }

  predicate VotesOk(s: State) {
    && (forall i :: 0 <= i < |s.votes| ==> s.votes[i].proposal < |s.proposals| && 0 < s.votes[i].power <= MAX_POWER)
    && (forall i, j :: 0 <= i < j < |s.votes| ==>
          s.votes[i].proposal != s.votes[j].proposal || s.votes[i].user != s.votes[j].user)
  }

  /** What holds of a proposal that passed: quorum and majority at a finalization not before the deadline. */
  predicate PassedRightly(s: State, p: nat)
    requires p < |s.proposals|
  {
    var q := s.proposals[p];
    && p in s.finals
    && s.finals[p].at >= q.endsAt
    && 10 * CastTotal(q) >= s.finals[p].supply
    && q.forVotes + q.againstVotes > 0 && 10 * q.forVotes >= 6 * (q.forVotes + q.againstVotes)
    && q.readyAt == Some(s.finals[p].at + TIMELOCK)
  }

  predicate ProposalOk(s: State, p: nat)
    requires p < |s.proposals|
  {
    && (s.proposals[p].status == Passed || s.proposals[p].status == Executed ==> PassedRightly(s, p))
    && (s.proposals[p].status == Executed ==>
          s.proposals[p].executedAt.Some? && s.proposals[p].executedAt.value >= s.finals[p].at + TIMELOCK)
  }

  predicate Inv(s: State) {
    VotesOk(s) && forall p :: 0 <= p < |s.proposals| ==> TallyOk(s, p) && ProposalOk(s, p)
  }

  lemma PowerAppend(votes: seq<Vote>, v: Vote, p: nat, choice: Choice)
    ensures PowerFor(votes + [v], p, choice)
         == PowerFor(votes, p, choice) + if v.proposal == p && v.choice == choice then v.power else 0
  {
    assert (votes + [v])[..|votes|] == votes;
  }

  lemma {:induction false} NoVotesYet(votes: seq<Vote>, p: nat, choice: Choice)
    requires forall i :: 0 <= i < |votes| ==> votes[i].proposal != p
    ensures PowerFor(votes, p, choice) == 0
  {
    if votes != [] {
      NoVotesYet(votes[..|votes| - 1], p, choice);
    }
  }

  lemma CastKeeps(s: State, p: nat, user: int, choice: Choice, balance: int, now: int)
    requires Inv(s) && Cast(s, p, user, choice, balance, now).Ok?
    ensures Inv(Cast(s, p, user, choice, balance, now).value)
  {
    var s' := Cast(s, p, user, choice, balance, now).value;
    var v := Vote(p, user, choice, Min(balance, MAX_POWER));
    forall q | 0 <= q < |s'.proposals|
      ensures TallyOk(s', q) && ProposalOk(s', q)
    {
      PowerAppend(s.votes, v, q, For);
      PowerAppend(s.votes, v, q, Against);
      PowerAppend(s.votes, v, q, Abstain);
      assert TallyOk(s, q) && ProposalOk(s, q);
    }
  }

  lemma CreateKeeps(s: State, user: int, balance: int, days: int, now: int)
    requires Inv(s) && Create(s, user, balance, days, now).Ok?
    ensures Inv(Create(s, user, balance, days, now).value)
  {
    var s' := Create(s, user, balance, days, now).value;
    NoVotesYet(s.votes, |s.proposals|, For);
    NoVotesYet(s.votes, |s.proposals|, Against);
    NoVotesYet(s.votes, |s.proposals|, Abstain);
    forall q | 0 <= q < |s.proposals|
      ensures TallyOk(s', q) && ProposalOk(s', q)
    {
      assert TallyOk(s, q) && ProposalOk(s, q);
    }
  }

  /** Finalizing and executing change one proposal, and leave its tallies alone. */
  lemma CloseKeeps(s: State, step: Step)
    requires Inv(s) && (step.DoFinalize? || step.DoExecute?)
    ensures Inv(Next(s, step))
  {
    var s' := Next(s, step);
    forall q | 0 <= q < |s'.proposals|
      ensures TallyOk(s', q) && ProposalOk(s', q)
    {
      assert TallyOk(s, q) && ProposalOk(s, q);
    }
  }

  lemma NextKeepsInv(s: State, step: Step)
    requires Inv(s)
    ensures Inv(Next(s, step))
  {
    if Outcome(s, step).Ok? {
      match step
      case DoCreate(user, balance, days, now) => CreateKeeps(s, user, balance, days, now);
      case DoCast(p, user, choice, balance, now) => CastKeeps(s, p, user, choice, balance, now);
      case _ => CloseKeeps(s, step);
    }
  }

  lemma {:induction false} RunKeepsInv(steps: seq<Step>)
    ensures Inv(Run(EMPTY, steps))
  {
    if steps != [] {
      RunKeepsInv(steps[..|steps| - 1]);
      NextKeepsInv(Run(EMPTY, steps[..|steps| - 1]), steps[|steps| - 1]);
    }
  }

  // ---------------------------------------------------------------- theorems

  lemma {:induction false} PowerCapped(votes: seq<Vote>, p: nat)
    requires forall i :: 0 <= i < |votes| ==> 0 < votes[i].power <= MAX_POWER
    ensures PowerFor(votes, p, For) + PowerFor(votes, p, Against) + PowerFor(votes, p, Abstain)
         <= Voters(votes, p) * MAX_POWER
  {
    if votes != [] {
      PowerCapped(votes[..|votes| - 1], p);
    }
  }

  /** In every reachable state tallies equal the vote rows, each user votes once, each vote is positive and capped. */
  lemma TalliesMatchVotes(steps: seq<Step>)
    ensures var s := Run(EMPTY, steps); VotesOk(s) && forall p :: 0 <= p < |s.proposals| ==> TallyOk(s, p)
  {
    RunKeepsInv(steps);
  }

  /**
   A sixty percent majority and a ten percent quorum at finalization, distinct voters enough to
   carry that quorum at the cap, and execution no sooner than 48 hours after a finalization
   that was not before voting ended.
   */
  predicate RanRightly(s: State, p: nat)
    requires p < |s.proposals|
  {
    var q := s.proposals[p];
    && PassedRightly(s, p)
    && 10 * (Voters(s.votes, p) * MAX_POWER) >= s.finals[p].supply
    && q.executedAt.Some? && q.executedAt.value >= s.finals[p].at + TIMELOCK >= q.endsAt + TIMELOCK
  }

  lemma ExecutedIsRight(s: State, p: nat)
    requires Inv(s) && p < |s.proposals| && s.proposals[p].status == Executed
    ensures RanRightly(s, p)
  {
    assert TallyOk(s, p) && ProposalOk(s, p);
    PowerCapped(s.votes, p);
  }

  /** In every reachable state an executed proposal ran rightly. */
  lemma {:induction false} ExecutedRightly(steps: seq<Step>, p: nat)
    requires p < |Run(EMPTY, steps).proposals| && Run(EMPTY, steps).proposals[p].status == Executed
    ensures RanRightly(Run(EMPTY, steps), p)
  {
    RunKeepsInv(steps);
    ExecutedIsRight(Run(EMPTY, steps), p);
  }

  /** Once a proposal is closed only its execution can follow: tallies, deadline, timelock and finalization stay. */
  lemma {:induction false} ClosedIsFrozen(s: State, steps: seq<Step>, p: nat)
    requires p < |s.proposals| && s.proposals[p].status != Active
    ensures var s' := Run(s, steps);
            && p < |s'.proposals| && s'.proposals[p].status != Active
            && s'.proposals[p]
               == s.proposals[p].(status := s'.proposals[p].status, executedAt := s'.proposals[p].executedAt)
            && (p in s.finals ==> p in s'.finals && s'.finals[p] == s.finals[p])
            && (s.proposals[p].status != Passed ==> s'.proposals[p] == s.proposals[p])
  {
    if steps != [] {
      ClosedIsFrozen(s, steps[..|steps| - 1], p);
    }
  }
}
