/** The rules of the governance handlers, stated without their code: when each succeeds and what it changes. */
module GovernanceRules {
  import opened Common
  import opened Governance

  /** Short of a tenth of the supply it expires; with sixty percent of the decisive votes it passes; else not. */
  lemma VerdictExactly(p: Proposal, supply: int)
    ensures var (cast, decisive) := (p.forVotes + p.againstVotes + p.abstainVotes, p.forVotes + p.againstVotes);
            && (Verdict(p, supply) == Expired <==> 10 * cast < supply)
            && (Verdict(p, supply) == Passed <==>
                  10 * cast >= supply && decisive > 0 && 100 * p.forVotes >= 60 * decisive)
            && (Verdict(p, supply) == Rejected <==>
                  10 * cast >= supply && (decisive <= 0 || 100 * p.forVotes < 60 * decisive))
  {
  }

  /** A thousand AZM open a proposal with empty tallies, for the days asked or seven. */
  lemma CreateExactly(s: State, user: int, balance: int, days: int, now: int)
    ensures var r := Create(s, user, balance, days, now);
            && (r.Ok? <==> balance >= 1_000 * UNIT)
            && (r.Ok? ==>
                  var endsAt := now + (if days == 0 then 7 else days) * 86_400_000;
                  r.value == s.(proposals := s.proposals + [Proposal(user, endsAt, Active, 0, 0, 0, 0, None, None)]))
  {
  }

  predicate MayCast(s: State, p: nat, user: int, balance: int, now: int) {
    && p < |s.proposals| && s.proposals[p].status == Active && now <= s.proposals[p].endsAt && balance > 0
    && (forall i :: 0 <= i < |s.votes| ==> s.votes[i].proposal != p || s.votes[i].user != user)
  }

  /** One row of at most 100,000 AZM, counted once for its choice and once in the total. */
  predicate CastBooked(s: State, s': State, p: nat, user: int, choice: Choice, balance: int)
    requires p < |s.proposals|
  {
    var power := if balance > 100_000 * UNIT then 100_000 * UNIT else balance;
    var q := s.proposals[p];
    && s'.votes == s.votes + [Vote(p, user, choice, power)] && s'.finals == s.finals
    && s'.proposals
       == s.proposals[p := q.(forVotes := q.forVotes + (if choice == For then power else 0),
                              againstVotes := q.againstVotes + (if choice == Against then power else 0),
                              abstainVotes := q.abstainVotes + (if choice == Abstain then power else 0),
                              totalPower := q.totalPower + power)]
  }

  lemma CastExactly(s: State, p: nat, user: int, choice: Choice, balance: int, now: int)
    ensures var r := Cast(s, p, user, choice, balance, now);
            && (r.Ok? <==> MayCast(s, p, user, balance, now))
            && (r.Ok? ==> CastBooked(s, r.value, p, user, choice, balance))
  {
  }

  /** Closed with the verdict of its tallies; a passed proposal waits 48 hours. */
  predicate Closed(s: State, s': State, p: nat, supply: int, now: int)
    requires p < |s.proposals|
  {
    var q := s.proposals[p];
    var (cast, decisive) := (q.forVotes + q.againstVotes + q.abstainVotes, q.forVotes + q.againstVotes);
    var passed := 10 * cast >= supply && decisive > 0 && 100 * q.forVotes >= 60 * decisive;
    var status := if 10 * cast < supply then Expired else if passed then Passed else Rejected;
    && s'.votes == s.votes && s'.finals == s.finals[p := Final(now, supply)]
    && s'.proposals
       == s.proposals[p := q.(status := status, readyAt := if status == Passed then Some(now + 172_800_000) else None)]
  }

  lemma FinalizeExactly(s: State, p: nat, supply: int, now: int)
    ensures var r := Finalize(s, p, supply, now);
            && (r.Ok? <==> p < |s.proposals| && s.proposals[p].status == Active && now >= s.proposals[p].endsAt)
            && (r.Ok? ==> Closed(s, r.value, p, supply, now))
  {
    if p < |s.proposals| {
      VerdictExactly(s.proposals[p], supply);
    }
  }

  lemma ExecuteExactly(s: State, p: nat, now: int)
    ensures var r := Execute(s, p, now);
            && (r.Ok? <==> && p < |s.proposals| && s.proposals[p].status == Passed
                           && (s.proposals[p].readyAt.Some? ==> now >= s.proposals[p].readyAt.value))
            && (r.Ok? ==>
                  && r.value.votes == s.votes && r.value.finals == s.finals
                  && r.value.proposals
                     == s.proposals[p := s.proposals[p].(status := Executed, executedAt := Some(now))])
  {
  }
}
