/** AZM conversion: what is burned, what is paid, and that nothing goes negative. */
module ConversionProofs {
  import opened Common
  import opened Ledger
  import opened Treasury
  import opened TreasuryProofs

  // ---------------------------------------------------------------- the rate and one conversion

  lemma RoundDivNear(n: int, d: int)
    requires d > 0
    ensures 2 * n - d < 2 * d * RoundDiv(n, d) <= 2 * n + d
  {
  }

  /** Whatever pool balance was seen, the rounded rate is 500 to 1150 micro-USDC. */
  lemma RateBounds(poolSeen: int, holder: bool)
    ensures 500 <= Rate(poolSeen, holder) <= 1150
  {
  }

  /** Paid between 0.0005 and 0.00115 USDC per AZM, exactly. */
  predicate InBand(azm: int, usdc: int) {
    500 * azm <= 1_000_000 * usdc <= 1150 * azm
  }

  lemma LowestRate(azm: int)
    requires azm >= MIN_CONVERT
    ensures InBand(azm, RoundDiv(azm * 500, 1_000_000)) <==> azm % 2_000 == 0 || azm % 2_000 >= 1_000
  {
    var (q, r) := (azm / 2_000, azm % 2_000);
    assert RoundDiv(azm * 500, 1_000_000) == q + if r >= 1_000 then 1 else 0;
  }

  lemma HighestRate(azm: int)
    requires azm >= MIN_CONVERT
    ensures InBand(azm, RoundDiv(azm * 1150, 1_000_000)) <==> (23 * azm) % 20_000 < 10_000
  {
    var (q, r) := ((23 * azm) / 20_000, (23 * azm) % 20_000);
    assert RoundDiv(azm * 1150, 1_000_000) == q + if r >= 10_000 then 1 else 0;
  }

  lemma ProductBetween(azm: int, low: int, rate: int, high: int)
    requires azm >= 0 && low <= rate <= high
    ensures low * azm <= azm * rate <= high * azm
  {
    assert azm * (rate - low) >= 0 && azm * (high - rate) >= 0;
  }

  lemma RoundedBetween(n: int, low: int, high: int)
    requires low + 500_000 <= n <= high - 500_000
    ensures low <= 1_000_000 * RoundDiv(n, 1_000_000) <= high
  {
    RoundDivNear(n, 1_000_000);
  }

  /** Strictly inside the rate band, rounding to eight decimals cannot leave the price band. */
  lemma InnerRatesInBand(azm: int, rate: int)
    requires azm >= MIN_CONVERT && 500 < rate < 1150
    ensures InBand(azm, Proceeds(azm, rate))
  {
    ProductBetween(azm, 501, rate, 1149);
    RoundedBetween(azm * rate, 500 * azm, 1150 * azm);
  }

  /** At the lowest rate the payout does not round down; at the highest it does not round up. */
  predicate RoundsInward(azm: int, rate: int) {
    && (rate == 500 ==> azm % 2_000 == 0 || azm % 2_000 >= 1_000)
    && (rate == 1150 ==> (23 * azm) % 20_000 < 10_000)
  }

  /** Rounding to eight decimals keeps one conversion in its price band exactly when it rounds inward. */
  lemma {:induction false} BandExactly(azm: int, poolSeen: int, holder: bool)
    requires azm >= MIN_CONVERT
    ensures var rate := Rate(poolSeen, holder); InBand(azm, Proceeds(azm, rate)) <==> RoundsInward(azm, rate)
  {
    var rate := Rate(poolSeen, holder);
    RateBounds(poolSeen, holder);
    if rate == 500 {
      LowestRate(azm);
    } else if rate == 1150 {
      HighestRate(azm);
    } else {
      InnerRatesInBand(azm, rate);
    }
  }

  /** One logged conversion: at least ten AZM, paid at its rate to within half a base unit, in the band iff inward. */
  predicate ConversionOk(c: Conversion) {
    && c.azm >= MIN_CONVERT
    && 500 <= c.rate <= 1150
    && -1_000_000 <= 2 * (1_000_000 * c.usdc - c.azm * c.rate) <= 1_000_000
    && (InBand(c.azm, c.usdc) <==> RoundsInward(c.azm, c.rate))
  }

  lemma ProceedsOk(user: nat, azm: int, poolSeen: int, holder: bool, at: int)
    requires azm >= MIN_CONVERT
    ensures var rate := Rate(poolSeen, holder); ConversionOk(Conversion(user, azm, Proceeds(azm, rate), rate, at))
  {
    BandExactly(azm, poolSeen, holder);
    RateBounds(poolSeen, holder);
    RoundDivNear(azm * Rate(poolSeen, holder), 1_000_000);
  }

  const CUSTOMER: User := User(0, 0, 0, 100 * UNIT)

  const SMALL_POOL: State := State([CUSTOMER], [], [], [], [], [], 100 * UNIT, 0, 0, [])

  /** One base unit above the minimum, converted at the lowest rate, commits and is paid below the band. */
  lemma RoundingLeavesBand()
    ensures Start(SMALL_POOL)
    ensures var r := Convert(SMALL_POOL, 0, MIN_CONVERT + 1, Quote(0, 0, 100 * UNIT, false), 0);
            && r.Some? && |r.value.conversions| == 1
            && !InBand(r.value.conversions[0].azm, r.value.conversions[0].usdc)
  {
    var usdc := Proceeds(MIN_CONVERT + 1, Rate(100 * UNIT, false));
    BandExactly(MIN_CONVERT + 1, 100 * UNIT, false);
    TransferLines(EquityTreasury, Liability(0), usdc, Liability(0));
    assert usdc == 500_000;
  }

  // ---------------------------------------------------------------- totals

  function Burned(conversions: seq<Conversion>): int {
    if conversions == [] then 0 else Burned(conversions[..|conversions| - 1]) + conversions[|conversions| - 1].azm
  }

  function BurnedBy(conversions: seq<Conversion>, u: nat): int {
    if conversions == [] then 0
    else BurnedBy(conversions[..|conversions| - 1], u)
         + If(conversions[|conversions| - 1].user == u, conversions[|conversions| - 1].azm)
  }

  function Paid(conversions: seq<Conversion>): int {
    if conversions == [] then 0 else Paid(conversions[..|conversions| - 1]) + conversions[|conversions| - 1].usdc
  }

  /** In the band, but for half a base unit. */
  predicate PaidNear(c: Conversion) {
    c.azm >= MIN_CONVERT && 500 * c.azm - 500_000 <= 1_000_000 * c.usdc <= 1150 * c.azm + 500_000
  }

  lemma OnePaid(c: Conversion)
    requires ConversionOk(c)
    ensures PaidNear(c)
  {
    ProductBetween(c.azm, 500, c.rate, 1150);
  }

  /** Paid stays between 0.0005 and 0.00115 per AZM burned, but for half a base unit per conversion. */
  lemma {:induction false} PaidBounds(conversions: seq<Conversion>)
    requires forall i :: 0 <= i < |conversions| ==> PaidNear(conversions[i])
    ensures 500 * Burned(conversions) - 500_000 * |conversions| <= 1_000_000 * Paid(conversions)
    ensures 1_000_000 * Paid(conversions) <= 1150 * Burned(conversions) + 500_000 * |conversions|
    ensures |conversions| * MIN_CONVERT <= Burned(conversions)
  {
    if conversions != [] {
      assert PaidNear(conversions[|conversions| - 1]);
      PaidBounds(conversions[..|conversions| - 1]);
    }
  }

  /** When every conversion rounds inward the totals are in the band exactly. */
  lemma {:induction false} InwardTotals(conversions: seq<Conversion>)
    requires forall i :: 0 <= i < |conversions| ==>
               ConversionOk(conversions[i]) && RoundsInward(conversions[i].azm, conversions[i].rate)
    ensures InBand(Burned(conversions), Paid(conversions))
  {
    if conversions != [] {
      var last := conversions[|conversions| - 1];
      assert ConversionOk(last) && InBand(last.azm, last.usdc);
      InwardTotals(conversions[..|conversions| - 1]);
    }
  }

  predicate ConversionsOk(start: State, s: State, u: nat) {
    && (forall i :: 0 <= i < |s.conversions| ==> ConversionOk(s.conversions[i]))
    && s.pool >= 0
    && u < |s.users| == |start.users|
    && s.users[u].azm >= 0
    && s.users[u].azm == start.users[u].azm - BurnedBy(s.conversions, u)
  }

  /** Nothing burned, logged or drawn from the pool. */
  predicate AzmKept(s: State, s': State, u: nat) {
    && s'.conversions == s.conversions && s'.pool >= s.pool
    && u < |s.users| == |s'.users| && s'.users[u].azm == s.users[u].azm
  }

  lemma ReleaseKeepsAzm(s: State, t: nat, split: Split, u: nat)
    requires u < |s.users|
    ensures AzmKept(s, OrElse(ForceRelease(s, t, split), s), u)
  {
  }

  lemma TradesKeepAzm(s: State, step: Step, u: nat)
    requires MovesTrades(step) && u < |s.users|
    ensures AzmKept(s, Next(s, step), u)
  {
    if step.DoRelease? {
      ReleaseKeepsAzm(s, step.trade, step.split, u);
      assert Next(s, step) == OrElse(ForceRelease(s, step.trade, step.split), s);
    }
  }

  lemma GrantsKeepAzm(s: State, step: Step, u: nat)
    requires !MovesTrades(step) && !step.DoConvert? && u < |s.users|
    ensures AzmKept(s, Next(s, step), u)
  {
  }

  /** No other step burns AZM, logs a conversion or draws on the pool. */
  lemma OthersKeepAzm(s: State, step: Step, u: nat)
    requires !step.DoConvert? && u < |s.users|
    ensures AzmKept(s, Next(s, step), u)
  {
    if MovesTrades(step) {
      TradesKeepAzm(s, step, u);
    } else {
      GrantsKeepAzm(s, step, u);
    }
  }

  lemma BurnedByAppend(conversions: seq<Conversion>, c: Conversion, u: nat)
    ensures BurnedBy(conversions + [c], u) == BurnedBy(conversions, u) + If(c.user == u, c.azm)
  {
    assert (conversions + [c])[..|conversions|] == conversions;
  }

  lemma ConvertKeeps(start: State, s: State, user: nat, azm: int, quote: Quote, at: int, u: nat)
    requires ConversionsOk(start, s, u) && Convert(s, user, azm, quote, at).Some?
    ensures ConversionsOk(start, Convert(s, user, azm, quote, at).value, u)
  {
    var rate := Rate(quote.poolSeen, quote.holder);
    ProceedsOk(user, azm, quote.poolSeen, quote.holder, at);
    BurnedByAppend(s.conversions, Conversion(user, azm, Proceeds(azm, rate), rate, at), u);
  }

  lemma NextConversions(start: State, s: State, step: Step, u: nat)
    requires ConversionsOk(start, s, u)
    ensures ConversionsOk(start, Next(s, step), u)
  {
    if !step.DoConvert? {
      OthersKeepAzm(s, step, u);
    } else if Convert(s, step.user, step.azm, step.quote, step.at).Some? {
      ConvertKeeps(start, s, step.user, step.azm, step.quote, step.at, u);
    }
  }

  /**
   Under any interleaving with stale rates and pre-checks: AZM balances and the pool stay
   non-negative, each user's burn equals that user's logs, and payouts keep to the rate band.
   */
  lemma {:induction false} ConversionTotals(start: State, steps: seq<Step>, u: nat)
    requires Start(start) && u < |start.users|
    ensures var s := Run(start, steps);
            && ConversionsOk(start, s, u)
            && 500 * Burned(s.conversions) - 500_000 * |s.conversions| <= 1_000_000 * Paid(s.conversions)
            && 1_000_000 * Paid(s.conversions) <= 1150 * Burned(s.conversions) + 500_000 * |s.conversions|
            && |s.conversions| * MIN_CONVERT <= Burned(s.conversions)
            && ((forall i :: 0 <= i < |s.conversions| ==> RoundsInward(s.conversions[i].azm, s.conversions[i].rate))
                ==> InBand(Burned(s.conversions), Paid(s.conversions)))
  {
    if steps != [] {
      ConversionTotals(start, steps[..|steps| - 1], u);
      NextConversions(start, Run(start, steps[..|steps| - 1]), steps[|steps| - 1], u);
    }
    var conversions := Run(start, steps).conversions;
    forall i | 0 <= i < |conversions|
      ensures PaidNear(conversions[i])
    {
      OnePaid(conversions[i]);
    }
    PaidBounds(conversions);
    if forall i :: 0 <= i < |conversions| ==> RoundsInward(conversions[i].azm, conversions[i].rate) {
      InwardTotals(conversions);
    }
  }

  // ---------------------------------------------------------------- conservation

  function Holdings(users: seq<User>): int {
    if users == [] then 0
    else
      var u := users[|users| - 1];
      Holdings(users[..|users| - 1]) + u.available + u.unallocated + u.escrow
  }

  /** The profit pool plus everything customers hold. */
  function Wealth(s: State): int {
    s.pool + Holdings(s.users)
  }

  function Worth(u: User): int {
    u.available + u.unallocated + u.escrow
  }

  lemma {:induction false} HoldingsUpdate(users: seq<User>, i: nat, u: User)
    requires i < |users|
    ensures Holdings(users[i := u]) == Holdings(users) - Worth(users[i]) + Worth(u)
  {
    var n := |users| - 1;
    if i == n {
      assert users[i := u][..n] == users[..n];
    } else {
      assert users[i := u][..n] == users[..n][i := u];
      HoldingsUpdate(users[..n], i, u);
    }
  }

  lemma HoldingsAdd(users: seq<User>, u: nat, amount: int)
    requires u < |users|
    ensures Holdings(AddAvailable(users, u, amount)) == Holdings(users) + amount
  {
    HoldingsUpdate(users, u, users[u].(available := users[u].available + amount));
  }

  /** What a committed step brings in from outside: grants, refunds, deposits, and settlement shares minus principal. */
  function Inflow(s: State, step: Step): int {
    if !Commits(s, step) then 0
    else
      match step
      case DoRefund(w, _) => if w < |s.legacy| then s.legacy[w].amount else 0
      case DoCredit(k) => if k < |s.claims| then s.claims[k].amount else 0
      case DoDeposit(_, _, raw, _) => if raw.BaseUnits? then raw.units * 100 else 0
      case DoRelease(t, split) => if t < |s.trades| then -Dust(s.trades[t].amount, split) else 0
      case _ => 0
  }

  function TotalInflow(s: State, steps: seq<Step>): int {
    if steps == [] then 0
    else TotalInflow(s, steps[..|steps| - 1]) + Inflow(Run(s, steps[..|steps| - 1]), steps[|steps| - 1])
  }

  lemma {:induction false} SettledHoldings(users: seq<User>, t: Trade, split: Split)
    requires t.vendor < |users| && t.customer < |users|
    ensures Holdings(Settled(users, t, split)) == Holdings(users) - t.amount + split.net + split.vendorCut
  {
    var h := Holder(t);
    var drained := users[h := users[h].(escrow := users[h].escrow - t.amount)];
    HoldingsUpdate(users, h, drained[h]);
    if t.sell {
      HoldingsAdd(drained, t.customer, split.net);
      HoldingsAdd(AddAvailable(drained, t.customer, split.net), t.vendor, split.vendorCut);
    } else {
      HoldingsAdd(drained, t.vendor, split.net + split.vendorCut);
    }
  }

  lemma ReleaseWealth(s: State, id: nat, split: Split)
    requires ForceRelease(s, id, split).Some?
    ensures Wealth(ForceRelease(s, id, split).value) == Wealth(s) - Dust(s.trades[id].amount, split)
  {
    SettledHoldings(s.users, s.trades[id], split);
  }

  lemma NextWealth(s: State, step: Step)
    ensures Wealth(Next(s, step)) == Wealth(s) + Inflow(s, step)
  {
    var s' := Next(s, step);
    if Commits(s, step) {
      match step
      case DoOpen(sell, vendor, customer, amount) =>
        var h := if sell then vendor else customer;
        HoldingsUpdate(s.users, h, s'.users[h]);
      case DoCancel(t) => HoldingsUpdate(s.users, Holder(s.trades[t]), s'.users[Holder(s.trades[t])]);
      case DoRelease(t, split) => ReleaseWealth(s, t, split);
      case DoRefund(w, _) => HoldingsAdd(s.users, s.legacy[w].user, s.legacy[w].amount);
      case DoCredit(k) => HoldingsAdd(s.users, s.claims[k].user, s.claims[k].amount);
      case DoDeposit(_, user, raw, _) => HoldingsAdd(s.users, user, raw.units * 100);
      case DoConvert(user, _, _, _) => HoldingsUpdate(s.users, user, s'.users[user]);
      case _ =>
    }
  }

  /**
   Pool plus customer holdings change over a run by exactly what came in from outside;
   conversions, escrow locks and force-cancels move money without making any.
   */
  lemma {:induction false} WealthConserved(s: State, steps: seq<Step>)
    ensures Wealth(Run(s, steps)) == Wealth(s) + TotalInflow(s, steps)
  {
    if steps != [] {
      WealthConserved(s, steps[..|steps| - 1]);
      NextWealth(Run(s, steps[..|steps| - 1]), steps[|steps| - 1]);
    }
  }
}
