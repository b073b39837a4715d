/** The rolling quota over runs of the treasury, whose conversions check it before they commit. */
module QuotaProofs {
  import opened Common
  import opened Ledger
  import opened Treasury
  import opened Quota

  /**
   The user's conversion does not overlap another of its own: the quota check saw every log of
   the user, on a clock that has not gone back.
   */
  predicate Serial(s: State, step: Step, u: nat) {
    step.DoConvert? && step.user == u && step.quote.logsSeen <= |s.conversions| ==>
      && LogsOf(s.conversions[..step.quote.logsSeen], u) == LogsOf(s.conversions, u)
      && Ordered(LogsOf(s.conversions, u), step.quote.checkedAt)
      && step.quote.checkedAt <= step.at
  }

  predicate SerialRun(start: State, steps: seq<Step>, u: nat) {
    steps == []
    || (SerialRun(start, steps[..|steps| - 1], u)
        && Serial(Run(start, steps[..|steps| - 1]), steps[|steps| - 1], u))
  }

  lemma LogsAppend(conversions: seq<Conversion>, c: Conversion, u: nat)
    ensures LogsOf(conversions + [c], u) == LogsOf(conversions, u) + if c.user == u then [Log(c.at, c.azm)] else []
  {
    assert (conversions + [c])[..|conversions|] == conversions;
  }

  /** The step logs a conversion of the user. */
  predicate LogsFor(s: State, step: Step, u: nat) {
    step.DoConvert? && step.user == u && Attempt(s, step).Some?
  }

  lemma OthersLogNothing(s: State, step: Step)
    requires !step.DoConvert?
    ensures Next(s, step).conversions == s.conversions
  {
  }

  /** What a step does to the user's logs: a committed conversion of that user adds its own, nothing else any. */
  lemma NextLogs(s: State, step: Step, u: nat)
    ensures LogsOf(Next(s, step).conversions, u)
         == LogsOf(s.conversions, u)
            + if LogsFor(s, step, u) then [Log(step.at, step.azm)] else []
  {
    var logs := LogsOf(s.conversions, u);
    assert logs + [] == logs;
    if !step.DoConvert? {
      OthersLogNothing(s, step);
    } else {
      var r := Convert(s, step.user, step.azm, step.quote, step.at);
      assert Attempt(s, step) == r;
      if r.Some? {
        var rate := Rate(step.quote.poolSeen, step.quote.holder);
        LogsAppend(s.conversions, Conversion(step.user, step.azm, Proceeds(step.azm, rate), rate, step.at), u);
      }
    }
  }

  /**
   A conversion whose log is the user's latest keeps every 24-hour window within the limit if
   and only if the quota, taken over all logs at the moment of logging, allows it.
   */
  lemma ConversionKeepsLimitIff(s: State, step: Step, u: nat)
    requires LogsFor(s, step, u)
    requires WithinLimit(LogsOf(s.conversions, u)) && Ordered(LogsOf(s.conversions, u), step.at)
    ensures WithinLimit(LogsOf(Next(s, step).conversions, u))
       <==> step.azm <= LIMIT - SumSince(LogsOf(s.conversions, u), step.at - DAY)
  {
    NextLogs(s, step, u);
    QuotaExactCondition(LogsOf(s.conversions, u), step.at, step.azm);
  }

  /** What the step logs for the user has room in every window it falls into. */
  predicate Fits(s: State, step: Step, u: nat) {
    LogsFor(s, step, u) ==> HasRoom(LogsOf(s.conversions, u), step.at, step.azm)
  }

  predicate FittingRun(start: State, steps: seq<Step>, u: nat) {
    steps == []
    || (FittingRun(start, steps[..|steps| - 1], u) && Fits(Run(start, steps[..|steps| - 1]), steps[|steps| - 1], u))
  }

  lemma NextNonNegative(s: State, step: Step, u: nat)
    requires NonNegative(LogsOf(s.conversions, u))
    ensures NonNegative(LogsOf(Next(s, step).conversions, u))
  {
    NextLogs(s, step, u);
  }

  lemma {:induction false} RunNonNegative(start: State, steps: seq<Step>, u: nat)
    requires Start(start)
    ensures NonNegative(LogsOf(Run(start, steps).conversions, u))
  {
    if steps != [] {
      RunNonNegative(start, steps[..|steps| - 1], u);
      NextNonNegative(Run(start, steps[..|steps| - 1]), steps[|steps| - 1], u);
    }
  }

  lemma StepLimitIff(s: State, step: Step, u: nat)
    requires NonNegative(LogsOf(s.conversions, u))
    ensures WithinLimit(LogsOf(Next(s, step).conversions, u))
       <==> WithinLimit(LogsOf(s.conversions, u)) && Fits(s, step, u)
  {
    var logs := LogsOf(s.conversions, u);
    NextLogs(s, step, u);
    assert logs + [] == logs;
    if LogsFor(s, step, u) {
      RoomExactCondition(logs, step.at, step.azm);
    }
  }

  lemma NothingLogged(start: State, u: nat)
    requires Start(start)
    ensures WithinLimit(LogsOf(start.conversions, u))
  {
    assert forall from :: SumWithin([], from) == 0;
  }

  /**
   Over every run, overlapping or not and in whatever order of times, every 24-hour window of a
   user holds at most the limit if and only if each of that user's conversions had room as it was
   logged: in the day that ends at it, and in the days that end at logs up to a day after it.
   */
  lemma {:induction false} QuotaHoldsIff(start: State, steps: seq<Step>, u: nat)
    requires Start(start)
    ensures WithinLimit(LogsOf(Run(start, steps).conversions, u)) <==> FittingRun(start, steps, u)
  {
    if steps == [] {
      NothingLogged(start, u);
    } else {
      var prefix := steps[..|steps| - 1];
      var (s, step) := (Run(start, prefix), steps[|steps| - 1]);
      RunNonNegative(start, prefix, u);
      QuotaHoldsIff(start, prefix, u);
      StepLimitIff(s, step, u);
      assert Run(start, steps) == Next(s, step);
      assert FittingRun(start, steps, u) <==> FittingRun(start, prefix, u) && Fits(s, step, u);
    }
  }

  lemma NextKeepsLimit(s: State, step: Step, u: nat)
    requires Serial(s, step, u) && WithinLimit(LogsOf(s.conversions, u))
    ensures WithinLimit(LogsOf(Next(s, step).conversions, u))
  {
    NextLogs(s, step, u);
    assert LogsOf(s.conversions, u) + [] == LogsOf(s.conversions, u);
    if LogsFor(s, step, u) {
      CheckedKeepsLimit(LogsOf(s.conversions, u), step.quote.checkedAt, step.at, step.azm);
    }
  }

  lemma {:induction false} RunKeepsLimit(start: State, steps: seq<Step>, u: nat)
    requires Start(start) && SerialRun(start, steps, u)
    ensures WithinLimit(LogsOf(Run(start, steps).conversions, u))
  {
    if steps == [] {
      NothingLogged(start, u);
    } else {
      RunKeepsLimit(start, steps[..|steps| - 1], u);
      NextKeepsLimit(Run(start, steps[..|steps| - 1]), steps[|steps| - 1], u);
    }
  }

  /** When one user's conversions do not overlap, every 24-hour window, wherever it starts, holds at most the limit. */
  lemma {:induction false} SlidingQuota(start: State, steps: seq<Step>, u: nat, from: int)
    requires Start(start) && SerialRun(start, steps, u)
    ensures SumWithin(LogsOf(Run(start, steps).conversions, u), from) <= LIMIT
  {
    RunKeepsLimit(start, steps, u);
  }

  // ---------------------------------------------------------------- overlapping checks

  const WHALE: State := State([User(0, 0, 0, 2 * LIMIT)], [], [], [], [], [], 100 * UNIT, 0, 0, [])

  /** A conversion of the whole limit that checked before anything was logged. */
  const GREEDY: Step := DoConvert(0, LIMIT, Quote(0, 0, 0, false), 0)

  lemma GreedyCommits(s: State)
    requires |s.users| == 1 && s.users[0].azm >= LIMIT && s.pool >= 3 * UNIT
    requires !HasKey(s.ledger, ConversionKey(|s.conversions|)) && !HasKey(s.ledger, ConversionKey(|s.conversions| + 1))
    ensures Attempt(s, GREEDY).Some? && |Next(s, GREEDY).users| == 1
    ensures Next(s, GREEDY).users[0].azm == s.users[0].azm - LIMIT
    ensures Next(s, GREEDY).pool == s.pool - 5 * UNIT / 2
    ensures |Next(s, GREEDY).conversions| == |s.conversions| + 1
    ensures !HasKey(Next(s, GREEDY).ledger, ConversionKey(|s.conversions| + 1))
  {
    var usdc := Proceeds(LIMIT, Rate(0, false));
    assert s.conversions[..0] == [] && LogsOf([], 0) == [];
    TransferLines(EquityTreasury, Liability(0), usdc, Liability(0));
    var p := Posting(ConversionKey(|s.conversions|), [Debit(EquityTreasury, usdc), Credit(Liability(0), usdc)]);
    assert Next(s, GREEDY).ledger == s.ledger + [p];
  }

  lemma RunTwo(start: State, a: Step, b: Step)
    ensures Run(start, [a, b]) == Next(Next(start, a), b)
  {
    assert [a, b][..1] == [a] && [a][..0] == [];
    assert Run(start, [a]) == Next(start, a);
  }

  lemma GreedyLogs(s: State)
    requires Attempt(s, GREEDY).Some?
    ensures LogsOf(Next(s, GREEDY).conversions, 0) == LogsOf(s.conversions, 0) + [Log(0, LIMIT)]
  {
    NextLogs(s, GREEDY, 0);
  }

  lemma TwoFullLogs()
    ensures SumWithin([] + [Log(0, LIMIT)] + [Log(0, LIMIT)], 0) == 2 * LIMIT
  {
    SumWithinAppend([], Log(0, LIMIT), 0);
    SumWithinAppend([] + [Log(0, LIMIT)], Log(0, LIMIT), 0);
  }

  /** Two conversions that check before either logs spend the quota twice: the check is outside the commit. */
  lemma {:induction false} OverlapDoublesQuota()
    ensures Start(WHALE)
    ensures SumWithin(LogsOf(Run(WHALE, [GREEDY, GREEDY]).conversions, 0), 0) == 2 * LIMIT
  {
    var once := Next(WHALE, GREEDY);
    GreedyCommits(WHALE);
    GreedyCommits(once);
    RunTwo(WHALE, GREEDY, GREEDY);
    GreedyLogs(WHALE);
    GreedyLogs(once);
    assert LogsOf(WHALE.conversions, 0) == [];
    TwoFullLogs();
  }
}
