/** The governance handlers as they run against the tables. */
module GovernanceDesk {
  import opened Common
  import opened Governance
  import opened GovernanceRules

  class Desk {
    var proposals: seq<Proposal>
    var votes: seq<Vote>
    ghost var finals: map<nat, Final>

    /** Tallies are the sums of the vote rows, and whatever passed or ran did so rightly. */
    ghost predicate Valid()
      reads this
    {
      Inv(View())
    }

    constructor ()
      ensures Valid() && View() == EMPTY
    {
      proposals, votes, finals := [], [], map[];
    }

    ghost function View(): State
      reads this
    {
      State(proposals, votes, finals)
    }

    method CreateProposal(user: int, balance: int, days: int, now: int) returns (error: Option<Error>)
      requires Valid()
      modifies this`proposals
      ensures var r := old(Create(View(), user, balance, days, now));
              if r.Ok? then error == None && View() == r.value else error == Some(r.error) && View() == old(View())
      ensures Valid()
      ensures error.None? ==> |proposals| == old(|proposals|) + 1 && TallyOk(View(), old(|proposals|))
                              && CastTotal(proposals[old(|proposals|)]) == 0
      ensures error.None? <==> balance >= 1_000 * UNIT
      ensures error.None? ==>
                var endsAt := now + (if days == 0 then 7 else days) * 86_400_000;
                proposals == old(proposals) + [Proposal(user, endsAt, Active, 0, 0, 0, 0, None, None)]
    {
      CreateExactly(View(), user, balance, days, now);
      NextKeepsInv(View(), DoCreate(user, balance, days, now));
      if balance < MIN_TO_PROPOSE { return Some(NotEnoughAzm); }
      var period := if days == 0 then DEFAULT_DAYS else days;
      proposals := proposals + [Proposal(user, now + period * 24 * HOUR, Active, 0, 0, 0, 0, None, None)];
      error := None;
    }

    /** The unique (proposal, user) lookup. */
    method FindVote(p: nat, user: int) returns (found: bool)
      ensures found == HasVoted(votes, p, user)
    {
      found := false;
      for i := 0 to |votes|
        invariant !found && forall j :: 0 <= j < i ==> votes[j].proposal != p || votes[j].user != user
      {
        if votes[i].proposal == p && votes[i].user == user { return true; }
      }
    }

    method CastVote(p: nat, user: int, choice: Choice, balance: int, now: int) returns (error: Option<Error>)
      requires Valid()
      modifies this`proposals, this`votes
      ensures var r := old(Cast(View(), p, user, choice, balance, now));
              if r.Ok? then error == None && View() == r.value else error == Some(r.error) && View() == old(View())
      ensures Valid()
      ensures error.None? ==> !old(HasVoted(votes, p, user)) && HasVoted(votes, p, user)
                              && CastTotal(proposals[p]) <= CastTotal(old(proposals)[p]) + MAX_POWER
      ensures error.None? <==> old(MayCast(View(), p, user, balance, now))
      ensures error.None? ==> CastBooked(old(View()), View(), p, user, choice, balance)
    {
      CastExactly(View(), p, user, choice, balance, now);
      NextKeepsInv(View(), DoCast(p, user, choice, balance, now));
      if p >= |proposals| { return Some(NotFound); }
      var proposal := proposals[p];
      if proposal.status != Active { return Some(NotActive); }
      if now > proposal.endsAt { return Some(VotingOver); }
      var voted := FindVote(p, user);
      if voted { return Some(AlreadyVoted); }
      var power := if balance < MAX_POWER then balance else MAX_POWER;
      if power <= 0 { return Some(NotEnoughAzm); }
      votes := votes + [Vote(p, user, choice, power)];
      match choice {
        case For => proposal := proposal.(forVotes := proposal.forVotes + power);
        case Against => proposal := proposal.(againstVotes := proposal.againstVotes + power);
        case Abstain => proposal := proposal.(abstainVotes := proposal.abstainVotes + power);
      }
      proposals := proposals[p := proposal.(totalPower := proposal.totalPower + power)];
      assert votes[|votes| - 1].proposal == p && votes[|votes| - 1].user == user;
      error := None;
    }

    /** `supply` is the sum of all AZM balances at this moment. */
    method FinalizeProposal(p: nat, supply: int, now: int) returns (error: Option<Error>)
      requires Valid()
      modifies this`proposals, this`finals
      ensures var r := old(Finalize(View(), p, supply, now));
              if r.Ok? then error == None && View() == r.value else error == Some(r.error) && View() == old(View())
      ensures Valid()
      ensures error.None? && proposals[p].status == Passed ==> PassedRightly(View(), p)
      ensures error.None? && proposals[p].status == Expired ==> 10 * CastTotal(proposals[p]) < supply
      ensures error.None? <==>
                p < old(|proposals|) && old(proposals)[p].status == Active && now >= old(proposals)[p].endsAt
      ensures error.None? ==> Closed(old(View()), View(), p, supply, now)
    {
      FinalizeExactly(View(), p, supply, now);
      NextKeepsInv(View(), DoFinalize(p, supply, now));
      if p >= |proposals| { return Some(NotFound); }
      var proposal := proposals[p];
      if proposal.status != Active { return Some(NotActive); }
      if now < proposal.endsAt { return Some(VotingOpen); }
      var cast := proposal.forVotes + proposal.againstVotes + proposal.abstainVotes;
      var decisive := proposal.forVotes + proposal.againstVotes;
      var status, readyAt := Rejected, None;
      if 10 * cast < supply {
        status := Expired;
      } else if decisive > 0 && 10 * proposal.forVotes >= 6 * decisive {
        status, readyAt := Passed, Some(now + TIMELOCK);
      }
      proposals := proposals[p := proposal.(status := status, readyAt := readyAt)];
      finals := finals[p := Final(now, supply)];
      assert ProposalOk(View(), p);
      error := None;
    }

    method ExecuteProposal(p: nat, now: int) returns (error: Option<Error>)
      requires Valid()
      modifies this`proposals
      ensures var r := old(Execute(View(), p, now));
              if r.Ok? then error == None && View() == r.value else error == Some(r.error) && View() == old(View())
      ensures Valid()
      ensures error.None? ==> RanRightly(View(), p)
      ensures error.None? <==>
                && p < old(|proposals|) && old(proposals)[p].status == Passed
                && (old(proposals)[p].readyAt.Some? ==> now >= old(proposals)[p].readyAt.value)
      ensures error.None? ==>
                proposals == old(proposals)[p := old(proposals)[p].(status := Executed, executedAt := Some(now))]
    {
      ExecuteExactly(View(), p, now);
      NextKeepsInv(View(), DoExecute(p, now));
      if p >= |proposals| { return Some(NotFound); }
      var proposal := proposals[p];
      if proposal.status != Passed { return Some(NotPassed); }
      if proposal.readyAt.Some? && now < proposal.readyAt.value { return Some(Timelocked); }
      proposals := proposals[p := proposal.(status := Executed, executedAt := Some(now))];
      ExecutedIsRight(View(), p);
      error := None;
    }
  }
}
