/**
 The rules of the money handlers, stated without their code: what the conversion rate is, when
 each transaction succeeds, and exactly what it then changes.
 */
module TreasuryRules {
  import opened Common
  import opened Ledger
  import opened Treasury
  import opened TreasuryProofs
  import opened ConversionProofs
  import Quota

  // ---------------------------------------------------------------- the rate

  /** The integer nearest to n / d, a half rounding up. */
  predicate Nearest(n: int, d: int, q: int) {
    2 * n - d < 2 * d * q <= 2 * n + d
  }

  /**
   Micro-USDC per AZM: 1000 from a pool of 10,000 up, 500 at 5,000 or below, in between the pool
   over ten; for an old account 1.15 times the unrounded value. Rounded to the nearest.
   */
  predicate IsRate(pool: int, holder: bool, rate: int) {
    if pool >= 10_000 * UNIT then rate == (if holder then 1150 else 1000)
    else if pool <= 5_000 * UNIT then rate == (if holder then 575 else 500)
    else if holder then Nearest(115 * pool, 1_000 * UNIT, rate)
    else Nearest(pool, 10 * UNIT, rate)
  }

  lemma RateExactly(pool: int, holder: bool)
    ensures IsRate(pool, holder, Rate(pool, holder))
  {
    if 5_000 * UNIT < pool < 10_000 * UNIT {
      if holder {
        RoundDivNear(115 * pool, 1_000 * UNIT);
      } else {
        RoundDivNear(100 * pool, 1_000 * UNIT);
      }
    }
  }

  lemma RoundedInOrder(n: int, n': int, q: int, q': int)
    requires n <= n' && Nearest(n, 1_000 * UNIT, q) && Nearest(n', 1_000 * UNIT, q')
    ensures q <= q'
  {
  }

  /** A fuller pool never lowers the rate, and an old account never gets less. */
  lemma RateMonotone(pool: int, pool': int, holder: bool)
    requires pool <= pool'
    ensures Rate(pool, holder) <= Rate(pool', holder) && Rate(pool, false) <= Rate(pool, true)
  {
    var (low, high) := (Clamp(pool, 5_000 * UNIT, 10_000 * UNIT), Clamp(pool', 5_000 * UNIT, 10_000 * UNIT));
    RoundDivNear(low * 100, 1_000 * UNIT);
    RoundDivNear(low * 115, 1_000 * UNIT);
    RoundDivNear(high * 100, 1_000 * UNIT);
    RoundDivNear(high * 115, 1_000 * UNIT);
    RoundedInOrder(low * 100, low * 115, Rate(pool, false), Rate(pool, true));
    if holder {
      RoundedInOrder(low * 115, high * 115, Rate(pool, true), Rate(pool', true));
    } else {
      RoundedInOrder(low * 100, high * 100, Rate(pool, false), Rate(pool', false));
    }
  }

  // ---------------------------------------------------------------- frames

  /** Trades, withdrawals, claims, history, conversions and platform balances stay; users and ledger may move. */
  predicate RestStays(s: State, s': State) {
    && s'.trades == s.trades && s'.legacy == s.legacy && s'.claims == s.claims && s'.history == s.history
    && s'.conversions == s.conversions && s'.pool == s.pool
    && s'.masterCrypto == s.masterCrypto && s'.hotWallet == s.hotWallet
  }

  /** One posting more: `amount` from one account to another. */
  predicate Transferred(s: State, s': State, key: PostKey, from: Account, to: Account, amount: int) {
    s'.ledger == s.ledger + [Posting(key, [Line(from, amount, 0), Line(to, 0, amount)])]
  }

  lemma FreshTransfer(s: State, key: PostKey, from: Account, to: Account, amount: int)
    requires !HasKey(s.ledger, key)
    ensures Post(s.ledger, key, [Debit(from, amount), Credit(to, amount)])
         == if amount > 0 then Some(s.ledger + [Posting(key, [Line(from, amount, 0), Line(to, 0, amount)])]) else None
  {
    TransferLines(from, to, amount, from);
    var lines := [Debit(from, amount), Credit(to, amount)];
    assert lines[0] == Debit(from, amount);
    assert lines == [Line(from, amount, 0), Line(to, 0, amount)];
  }

  lemma UnusedUnlessOk(s: State, key: PostKey)
    requires KeysOk(s) && !KeyOk(s, key)
    ensures !HasKey(s.ledger, key)
  {
  }

  // ---------------------------------------------------------------- opening and cancelling a trade

  predicate MayOpen(s: State, sell: bool, vendor: nat, customer: nat, amount: int) {
    && vendor < |s.users| && customer < |s.users| && amount > 0
    && (if sell then s.users[vendor].unallocated >= amount else s.users[customer].available >= amount)
  }

  /** The seller's stock, or the buyer's balance, moves into escrow. */
  predicate Opened(s: State, s': State, sell: bool, vendor: nat, customer: nat, amount: int)
    requires vendor < |s.users| && customer < |s.users|
  {
    var (v, c) := (s.users[vendor], s.users[customer]);
    && RestStays(s, s'.(trades := s.trades))
    && s'.trades == s.trades + [Trade(sell, vendor, customer, amount, Open)]
    && s'.users == (if sell then s.users[vendor := User(v.available, v.unallocated - amount, v.escrow + amount, v.azm)]
                    else s.users[customer := User(c.available - amount, c.unallocated, c.escrow + amount, c.azm)])
    && Transferred(s, s', LockKey(|s.trades|), if sell then Unallocated(vendor) else Liability(customer),
                   TradeEscrow(|s.trades|), amount)
  }

  lemma OpenExactly(s: State, sell: bool, vendor: nat, customer: nat, amount: int)
    requires Inv(s)
    ensures var r := OpenTrade(s, sell, vendor, customer, amount);
            && (r.Some? <==> MayOpen(s, sell, vendor, customer, amount))
            && (r.Some? ==> Opened(s, r.value, sell, vendor, customer, amount))
  {
    UnusedUnlessOk(s, LockKey(|s.trades|));
    FreshTransfer(s, LockKey(|s.trades|), if sell then Unallocated(vendor) else Liability(customer),
                  TradeEscrow(|s.trades|), amount);
  }

  /** The escrow returns to the bucket it came from and the trade is CANCELLED. */
  predicate CancelledTrade(s: State, s': State, id: nat)
    requires id < |s.trades| && s.trades[id].vendor < |s.users| && s.trades[id].customer < |s.users|
  {
    var t := s.trades[id];
    var (v, c) := (s.users[t.vendor], s.users[t.customer]);
    && RestStays(s, s'.(trades := s.trades))
    && s'.trades == s.trades[id := Trade(t.sell, t.vendor, t.customer, t.amount, Cancelled)]
    && s'.users == (if t.sell
                    then s.users[t.vendor := User(v.available, v.unallocated + t.amount, v.escrow - t.amount, v.azm)]
                    else s.users[t.customer := User(c.available + t.amount, c.unallocated, c.escrow - t.amount, c.azm)])
    && Transferred(s, s', CancelKey(id), TradeEscrow(id),
                   if t.sell then Unallocated(t.vendor) else Liability(t.customer), t.amount)
  }

  lemma CancelExactly(s: State, id: nat)
    requires Inv(s) && EscrowOk(s)
    ensures var r := ForceCancel(s, id);
            && (r.Some? <==> id < |s.trades| && s.trades[id].status == Disputed)
            && (r.Some? ==> CancelledTrade(s, r.value, id))
  {
    CancelIffDisputed(s, id);
    if ForceCancel(s, id).Some? {
      var t := s.trades[id];
      UnusedUnlessOk(s, CancelKey(id));
      FreshTransfer(s, CancelKey(id), TradeEscrow(id), Source(t), t.amount);
    }
  }

  // ---------------------------------------------------------------- legacy refunds

  predicate MayRefund(s: State, id: nat, review: bool) {
    && id < |s.legacy| && s.legacy[id].user < |s.users| && s.legacy[id].amount > 0
    && (if review then s.legacy[id].status == Parked else s.legacy[id].status == Live)
  }

  function Refilled(users: seq<User>, u: nat, amount: int): seq<User>
    requires u < |users|
  {
    users[u := User(users[u].available + amount, users[u].unallocated, users[u].escrow, users[u].azm)]
  }

  predicate Refunded(s: State, s': State, id: nat, review: bool)
    requires id < |s.legacy| && s.legacy[id].user < |s.users|
  {
    var w := s.legacy[id];
    && RestStays(s, s'.(legacy := s.legacy))
    && s'.legacy == s.legacy[id := Legacy(w.user, w.amount, Rejected, false)]
    && s'.users == Refilled(s.users, w.user, w.amount)
    && Transferred(s, s', if review then ReviewKey(id) else RejectKey(id),
                   if w.reserved then RestrictedReserves else EquityTreasury, Liability(w.user), w.amount)
  }

  lemma RefundExactly(s: State, id: nat, review: bool)
    requires Inv(s)
    ensures var r := RefundLegacy(s, id, review);
            && (r.Some? <==> MayRefund(s, id, review)) && (r.Some? ==> Refunded(s, r.value, id, review))
  {
    if id < |s.legacy| && s.legacy[id].status != Rejected {
      var w := s.legacy[id];
      var key := if review then ReviewKey(id) else RejectKey(id);
      UnusedUnlessOk(s, key);
      FreshTransfer(s, key, if w.reserved then RestrictedReserves else EquityTreasury, Liability(w.user), w.amount);
    }
  }

  // ---------------------------------------------------------------- credits and deposits

  /** A key is claimed exactly when the admin holds no claim on it, in progress or committed. */
  lemma MintExactly(s: State, admin: int, key: string, user: nat, amount: int)
    ensures MintClaim(s, admin, key, user, amount)
         == if forall i :: 0 <= i < |s.claims| && s.claims[i].admin == admin && s.claims[i].key == key ==>
                 s.claims[i].status == Released
            then s.(claims := s.claims + [Claim(admin, key, user, amount, InProgress)]) else s
  {
  }

  /** Only a claim in progress can be released, so a committed one is kept. */
  lemma ReleaseClaimExactly(s: State, k: nat)
    ensures ReleaseClaim(s, k)
         == if k < |s.claims| && s.claims[k].status == InProgress
            then s.(claims := s.claims[k := Claim(s.claims[k].admin, s.claims[k].key, s.claims[k].user,
                                                  s.claims[k].amount, Released)])
            else s
  {
  }

  predicate MayCredit(s: State, k: nat) {
    && k < |s.claims| && s.claims[k].status == InProgress
    && s.claims[k].amount > 0 && s.claims[k].user < |s.users|
  }

  predicate Credited(s: State, s': State, k: nat)
    requires k < |s.claims| && s.claims[k].user < |s.users|
  {
    var c := s.claims[k];
    && RestStays(s, s'.(claims := s.claims, history := s.history))
    && s'.claims == s.claims[k := Claim(c.admin, c.key, c.user, c.amount, Committed)]
    && s'.history == s.history + [History(AdminCredit(c.admin, c.user, c.key), c.user, c.amount)]
    && s'.users == Refilled(s.users, c.user, c.amount)
    && Transferred(s, s', CreditKey(|s.history|), EquityTreasury, Liability(c.user), c.amount)
  }

  /** A claim in progress has no credit on record: the identity it would record under is its own. */
  lemma InProgressIsUnrecorded(s: State, k: nat)
    requires ClaimsOk(s) && k < |s.claims| && s.claims[k].status == InProgress
    ensures !Recorded(s.history, HashOf(s.claims[k]))
  {
  }

  /** A credit succeeds exactly on a claim in progress, for a positive amount and an existing user. */
  lemma CreditExactly(s: State, k: nat)
    requires Inv(s)
    ensures var r := CreditUser(s, k);
            (r.Some? <==> MayCredit(s, k)) && (r.Some? ==> Credited(s, r.value, k))
  {
    if k < |s.claims| && s.claims[k].status == InProgress {
      var c := s.claims[k];
      InProgressIsUnrecorded(s, k);
      UnusedUnlessOk(s, CreditKey(|s.history|));
      FreshTransfer(s, CreditKey(|s.history|), EquityTreasury, Liability(c.user), c.amount);
    }
  }

  predicate MayDeposit(s: State, hash: string, user: nat, raw: RawAmount, registered: bool) {
    && raw.BaseUnits? && raw.units > 0 && registered && user < |s.users|
    && (forall h :: 0 <= h < |s.history| ==> s.history[h].hash != OnChain(hash))
  }

  /** Six-decimal base units become eight-decimal ones: the user and both platform wallets gain the same. */
  predicate DepositBooked(s: State, s': State, hash: string, user: nat, units: int)
    requires user < |s.users|
  {
    && RestStays(s, s'.(history := s.history, masterCrypto := s.masterCrypto, hotWallet := s.hotWallet))
    && s'.history == s.history + [History(OnChain(hash), user, 100 * units)]
    && s'.users == Refilled(s.users, user, 100 * units)
    && s'.masterCrypto == s.masterCrypto + 100 * units && s'.hotWallet == s.hotWallet + 100 * units
    && Transferred(s, s', DepositKey(hash), UnverifiedCustody, Liability(user), 100 * units)
  }

  lemma DepositExactly(s: State, hash: string, user: nat, raw: RawAmount, registered: bool)
    requires Inv(s)
    ensures var r := Deposit(s, hash, user, raw, registered);
            && (r.Some? <==> MayDeposit(s, hash, user, raw, registered))
            && (r.Some? ==> DepositBooked(s, r.value, hash, user, raw.units))
  {
    if raw.BaseUnits? && !Recorded(s.history, OnChain(hash)) {
      UnusedUnlessOk(s, DepositKey(hash));
      FreshTransfer(s, DepositKey(hash), UnverifiedCustody, Liability(user), raw.units * 100);
    }
  }

  // ---------------------------------------------------------------- conversion

  /** At least ten AZM, within 5000 of the 24 hours before the check, backed by balance and pool. */
  predicate MayConvert(s: State, user: nat, azm: int, quote: Quote, usdc: int) {
    && azm >= 10 * UNIT && quote.logsSeen <= |s.conversions|
    && Quota.SumSince(LogsOf(s.conversions[..quote.logsSeen], user), quote.checkedAt - 86_400_000) + azm <= 5_000 * UNIT
    && user < |s.users| && s.users[user].azm >= azm && s.pool >= usdc
  }

  predicate Converted(s: State, s': State, user: nat, azm: int, rate: int, usdc: int, at: int)
    requires user < |s.users|
  {
    var u := s.users[user];
    && RestStays(s, s'.(conversions := s.conversions, pool := s.pool))
    && s'.conversions == s.conversions + [Conversion(user, azm, usdc, rate, at)]
    && s'.pool == s.pool - usdc
    && s'.users == s.users[user := User(u.available + usdc, u.unallocated, u.escrow, u.azm - azm)]
    && Transferred(s, s', ConversionKey(|s.conversions|), EquityTreasury, Liability(user), usdc)
  }

  lemma ProceedsExactly(azm: int, poolSeen: int, holder: bool)
    requires azm >= 10 * UNIT
    ensures var rate := Rate(poolSeen, holder);
            Nearest(azm * rate, 1_000_000, Proceeds(azm, rate)) && Proceeds(azm, rate) > 0
  {
    var rate := Rate(poolSeen, holder);
    RateBounds(poolSeen, holder);
    ProductBetween(azm, 500, rate, 1150);
    RoundDivNear(azm * rate, 1_000_000);
  }

  lemma QuotaExactly(conversions: seq<Conversion>, user: nat, azm: int, quote: Quote)
    requires azm > 0
    ensures QuotaAllows(conversions, user, azm, quote)
       <==> && quote.logsSeen <= |conversions|
            && Quota.SumSince(LogsOf(conversions[..quote.logsSeen], user), quote.checkedAt - 86_400_000) + azm
               <= 5_000 * UNIT
  {
  }

  /** When a conversion succeeds, at what rate, for how much, and what it changes. */
  lemma ConvertExactly(s: State, user: nat, azm: int, quote: Quote, at: int) returns (rate: int, usdc: int)
    requires Inv(s)
    ensures IsRate(quote.poolSeen, quote.holder, rate) && Nearest(azm * rate, 1_000_000, usdc)
    ensures var r := Convert(s, user, azm, quote, at);
            && (r.Some? <==> MayConvert(s, user, azm, quote, usdc))
            && (r.Some? ==> Converted(s, r.value, user, azm, rate, usdc, at))
  {
    rate := Rate(quote.poolSeen, quote.holder);
    usdc := Proceeds(azm, rate);
    RateExactly(quote.poolSeen, quote.holder);
    RoundDivNear(azm * rate, 1_000_000);
    if azm >= 10 * UNIT {
      QuotaExactly(s.conversions, user, azm, quote);
      ProceedsExactly(azm, quote.poolSeen, quote.holder);
      UnusedUnlessOk(s, ConversionKey(|s.conversions|));
      FreshTransfer(s, ConversionKey(|s.conversions|), EquityTreasury, Liability(user), usdc);
      ConvertWithFreshKey(s, user, azm, quote, at);
    }
  }

  /** The same, once the posting is known to be accepted. */
  lemma ConvertWithFreshKey(s: State, user: nat, azm: int, quote: Quote, at: int)
    requires azm >= 10 * UNIT
    requires var usdc := Proceeds(azm, Rate(quote.poolSeen, quote.holder));
             Post(s.ledger, ConversionKey(|s.conversions|),
                  [Debit(EquityTreasury, usdc), Credit(Liability(user), usdc)])
             == Some(s.ledger + [Posting(ConversionKey(|s.conversions|),
                                         [Line(EquityTreasury, usdc, 0), Line(Liability(user), 0, usdc)])])
    ensures var (rate, r) := (Rate(quote.poolSeen, quote.holder), Convert(s, user, azm, quote, at));
            var usdc := Proceeds(azm, rate);
            && (r.Some? <==> QuotaAllows(s.conversions, user, azm, quote) && user < |s.users|
                             && s.users[user].azm >= azm && s.pool >= usdc)
            && (r.Some? ==> Converted(s, r.value, user, azm, rate, usdc, at))
  {
  }

  // ---------------------------------------------------------------- releasing a trade

  /** A settlement pays somebody: both shares for a SELL trade, their sum for a BUY trade. */
  predicate PaysOut(t: Trade, split: Split) {
    && split.net >= 0 && split.vendorCut >= 0 && split.adminCut >= 0
    && (if t.sell then split.net > 0 && split.vendorCut > 0 else split.net + split.vendorCut > 0)
  }

  lemma {:induction false} NetConcat(a: seq<Line>, b: seq<Line>)
    ensures NetDebit(a + b) == NetDebit(a) + NetDebit(b)
  {
    if b == [] {
      assert a + b == a;
    } else {
      assert (a + b)[..|a + b| - 1] == a + b[..|b| - 1];
      NetConcat(a, b[..|b| - 1]);
    }
  }

  lemma {:induction false} NetOf(lines: seq<Line>, l: Line)
    ensures NetDebit(lines + [l]) == NetDebit(lines) + l.debit - l.credit
  {
    LinesAppend(lines, l, l.account);
  }

  lemma {:induction false} FeesNet(amount: int, split: Split)
    requires Fair(split)
    ensures NetDebit(FeeLines(amount, split)) == -split.adminCut - Dust(amount, split)
    ensures LinesOk(FeeLines(amount, split))
  {
    var credit := split.adminCut + Positive(Dust(amount, split));
    var debit := Positive(-Dust(amount, split));
    NetOf([], Credit(FeeRevenue, credit));
    NetOf([], Debit(FeeRevenue, debit));
    NetOf([Credit(FeeRevenue, credit)], Debit(FeeRevenue, debit));
    assert [] + [Credit(FeeRevenue, credit)] == [Credit(FeeRevenue, credit)];
    assert [] + [Debit(FeeRevenue, debit)] == [Debit(FeeRevenue, debit)];
    assert [Credit(FeeRevenue, credit)] + [] == [Credit(FeeRevenue, credit)];
  }

  lemma {:induction false} SharesNet(id: nat, t: Trade, split: Split)
    ensures NetDebit(ShareLines(id, t, split)) == t.amount - split.net - split.vendorCut
  {
    var escrow := Debit(TradeEscrow(id), t.amount);
    NetOf([], escrow);
    assert [] + [escrow] == [escrow];
    if t.sell {
      var (a, b) := (Credit(Liability(t.customer), split.net), Credit(Liability(t.vendor), split.vendorCut));
      NetOf([escrow], a);
      NetOf([escrow, a], b);
      assert [escrow] + [a] == [escrow, a] && [escrow, a] + [b] == [escrow, a, b];
    } else {
      var a := Credit(Liability(t.vendor), split.net + split.vendorCut);
      NetOf([escrow], a);
      assert [escrow] + [a] == [escrow, a];
    }
  }

  predicate LinesOk(lines: seq<Line>) {
    forall i :: 0 <= i < |lines| ==> LineOk(lines[i])
  }

  lemma LinesOkConcat(a: seq<Line>, b: seq<Line>)
    ensures LinesOk(a + b) <==> LinesOk(a) && LinesOk(b)
  {
    var c := a + b;
    assert forall i :: 0 <= i < |a| ==> c[i] == a[i];
    assert forall i :: 0 <= i < |b| ==> c[|a| + i] == b[i];
    if LinesOk(c) {
      forall i | 0 <= i < |b|
        ensures LineOk(b[i])
      {
        assert LineOk(c[|a| + i]);
      }
    }
  }

  lemma SharesOk(id: nat, t: Trade, split: Split)
    requires t.amount > 0 && Fair(split)
    ensures LinesOk(ShareLines(id, t, split)) <==> PaysOut(t, split)
  {
    var shares := ShareLines(id, t, split);
    assert LineOk(shares[0]);
    assert t.sell ==> |shares| == 3 && shares[1].credit == split.net && shares[2].credit == split.vendorCut;
    assert !t.sell ==> |shares| == 2 && shares[1].credit == split.net + split.vendorCut;
  }

  lemma {:induction false} SettleAccepted(id: nat, t: Trade, split: Split)
    requires t.amount > 0 && Fair(split)
    ensures Accepts(SettleLines(id, t, split)) <==> PaysOut(t, split)
  {
    var (shares, fees) := (ShareLines(id, t, split), FeeLines(t.amount, split));
    SharesNet(id, t, split);
    FeesNet(t.amount, split);
    NetConcat(shares, fees);
    SharesOk(id, t, split);
    LinesOkConcat(shares, fees);
    assert SettleLines(id, t, split) == shares + fees;
    assert Accepts(shares + fees) <==> LinesOk(shares + fees);
  }

  /** Each party's share arrives, the holder's escrow is drained, nobody else's columns move. */
  predicate SharesPaid(users: seq<User>, paid: seq<User>, t: Trade, split: Split) {
    && |paid| == |users|
    && (forall u :: 0 <= u < |users| ==>
          && paid[u].unallocated == users[u].unallocated && paid[u].azm == users[u].azm
          && paid[u].escrow == users[u].escrow - If(u == (if t.sell then t.vendor else t.customer), t.amount)
          && paid[u].available
             == users[u].available
                + (if t.sell then If(u == t.customer, split.net) + If(u == t.vendor, split.vendorCut)
                   else If(u == t.vendor, split.net + split.vendorCut)))
  }

  predicate ReleasedTrade(s: State, s': State, id: nat, split: Split)
    requires id < |s.trades|
  {
    var t := s.trades[id];
    && RestStays(s, s'.(trades := s.trades, pool := s.pool))
    && s'.trades == s.trades[id := Trade(t.sell, t.vendor, t.customer, t.amount, Treasury.Completed)]
    && s'.pool == s.pool + split.adminCut && SharesPaid(s.users, s'.users, t, split)
  }

  lemma SettledEscrow(users: seq<User>, t: Trade, split: Split, u: nat)
    requires t.vendor < |users| && t.customer < |users| && u < |users|
    ensures var paid := Settled(users, t, split);
            && |paid| == |users| && paid[u].azm == users[u].azm
            && paid[u].escrow == users[u].escrow - If(u == (if t.sell then t.vendor else t.customer), t.amount)
  {
  }

  lemma SettledPays(users: seq<User>, t: Trade, split: Split)
    requires t.vendor < |users| && t.customer < |users|
    ensures SharesPaid(users, Settled(users, t, split), t, split)
  {
    var paid := Settled(users, t, split);
    SettledEscrow(users, t, split, t.vendor);
    forall u | 0 <= u < |users|
      ensures && paid[u].unallocated == users[u].unallocated && paid[u].azm == users[u].azm
              && paid[u].escrow == users[u].escrow - If(u == (if t.sell then t.vendor else t.customer), t.amount)
              && paid[u].available
                 == users[u].available
                    + (if t.sell then If(u == t.customer, split.net) + If(u == t.vendor, split.vendorCut)
                       else If(u == t.vendor, split.net + split.vendorCut))
    {
      SettledColumns(users, t, split, u);
      SettledEscrow(users, t, split, u);
    }
  }

  /** A force-release takes effect exactly on a disputed trade whose settlement pays somebody. */
  lemma ReleaseExactly(s: State, id: nat, split: Split)
    requires Inv(s) && EscrowOk(s)
    ensures var r := ForceRelease(s, id, split);
            && (r.Some? <==> id < |s.trades| && s.trades[id].status == Disputed && PaysOut(s.trades[id], split))
            && (r.Some? ==> ReleasedTrade(s, r.value, id, split))
  {
    if id < |s.trades| && s.trades[id].status == Disputed && Fair(split) {
      var t := s.trades[id];
      SettleAccepted(id, t, split);
      UnusedUnlessOk(s, SettleKey(id));
      LockedCovers(s.trades, id, Holder(t));
      SettledPays(s.users, t, split);
    }
  }
}
