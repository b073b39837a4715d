/**
 The transactions that move customer money: trade escrow, legacy refunds, admin credit,
 AZM conversion and crypto deposit. Each changes stored balances and posts to the ledger
 in one atomic step. A commit takes whatever its handler read earlier as an argument and
 assumes nothing about how old it is, so a run of commits covers every interleaving.
 */
module Treasury {
  import opened Common
  import opened Ledger
  import Quota

  datatype User = User(available: int, unallocated: int, escrow: int, azm: int)

  datatype TradeStatus = Open | Disputed | Cancelled | Completed

  datatype Trade = Trade(sell: bool, vendor: nat, customer: nat, amount: int, status: TradeStatus)

  /** A mirror-only withdrawal; `reserved` when an active obligation of its own backs it. */
  datatype LegacyStatus = Live | Parked | Rejected

  datatype Legacy = Legacy(user: nat, amount: int, status: LegacyStatus, reserved: bool)

  datatype ClaimStatus = InProgress | Committed | Released

  /** An idempotency claim of the admin-credit route; unique per admin and key while not released. */
  datatype Claim = Claim(admin: int, key: string, user: nat, amount: int, status: ClaimStatus)

  datatype TxHash = OnChain(hash: string) | AdminCredit(admin: int, user: nat, key: string)

  datatype History = History(hash: TxHash, user: nat, amount: int)

  datatype Conversion = Conversion(user: nat, azm: int, usdc: int, rate: int, at: int)

  datatype State = State(
    users: seq<User>, trades: seq<Trade>, legacy: seq<Legacy>, claims: seq<Claim>,
    history: seq<History>, conversions: seq<Conversion>,
    pool: int, masterCrypto: int, hotWallet: int, ledger: seq<Posting>)

  // ---------------------------------------------------------------- trades

  function Holder(t: Trade): nat {
    if t.sell then t.vendor else t.customer
  }

  /** The account the escrow came from and returns to. */
  function Source(t: Trade): Account {
    if t.sell then Unallocated(t.vendor) else Liability(t.customer)
  }

  /** Moves `amount` between the holder's escrow and its source bucket; negative locks. */
  function Unlock(u: User, sell: bool, amount: int): User {
    if sell then u.(escrow := u.escrow - amount, unallocated := u.unallocated + amount)
    else u.(escrow := u.escrow - amount, available := u.available + amount)
  }

  /** Trade acceptance locks the escrow. */
  function OpenTrade(s: State, sell: bool, vendor: nat, customer: nat, amount: int): Option<State> {
    var t := Trade(sell, vendor, customer, amount, Open);
    if vendor >= |s.users| || customer >= |s.users| then None
    else
      var u := s.users[Holder(t)];
      if (if sell then u.unallocated else u.available) < amount then None
      else
        var posted := Post(s.ledger, LockKey(|s.trades|),
                           [Debit(Source(t), amount), Credit(TradeEscrow(|s.trades|), amount)]);
        if posted.None? then None
        else Some(s.(users := s.users[Holder(t) := Unlock(u, sell, -amount)], trades := s.trades + [t],
                     ledger := posted.value))
  }

  /** `forceCancel`: claim DISPUTED, return the escrow, post once. */
  function ForceCancel(s: State, id: nat): Option<State> {
    if id >= |s.trades| || s.trades[id].status != Disputed || Holder(s.trades[id]) >= |s.users| then None
    else
      var t := s.trades[id];
      var u := s.users[Holder(t)];
      var posted := Post(s.ledger, CancelKey(id), [Debit(TradeEscrow(id), t.amount), Credit(Source(t), t.amount)]);
      if posted.None? || u.escrow < t.amount then None
      else Some(s.(users := s.users[Holder(t) := Unlock(u, t.sell, t.amount)],
                   trades := s.trades[id := t.(status := Cancelled)], ledger := posted.value))
  }

  /** How a settlement splits the escrowed principal; the dust goes to fee revenue. */
  datatype Split = Split(net: int, vendorCut: int, adminCut: int)

  predicate Fair(split: Split) {
    split.net >= 0 && split.vendorCut >= 0 && split.adminCut >= 0
  }

  function Dust(amount: int, split: Split): int {
    amount - split.net - split.vendorCut - split.adminCut
  }

  function Positive(x: int): int {
    if x > 0 then x else 0
  }

  function FeeLines(amount: int, split: Split): seq<Line> {
    var credit := split.adminCut + Positive(Dust(amount, split));
    var debit := Positive(-Dust(amount, split));
    (if credit != 0 then [Credit(FeeRevenue, credit)] else []) + (if debit != 0 then [Debit(FeeRevenue, debit)] else [])
  }

  function ShareLines(id: nat, t: Trade, split: Split): seq<Line> {
    var escrow := Debit(TradeEscrow(id), t.amount);
    if t.sell then [escrow, Credit(Liability(t.customer), split.net), Credit(Liability(t.vendor), split.vendorCut)]
    else [escrow, Credit(Liability(t.vendor), split.net + split.vendorCut)]
  }

  function SettleLines(id: nat, t: Trade, split: Split): seq<Line> {
    ShareLines(id, t, split) + FeeLines(t.amount, split)
  }

  function AddAvailable(users: seq<User>, u: nat, amount: int): seq<User> {
    if u < |users| then users[u := users[u].(available := users[u].available + amount)] else users
  }

  /** Drains the holder's escrow and pays the parties their shares. */
  function Settled(users: seq<User>, t: Trade, split: Split): seq<User>
    requires Holder(t) < |users|
  {
    var h := Holder(t);
    var drained := users[h := users[h].(escrow := users[h].escrow - t.amount)];
    if t.sell then AddAvailable(AddAvailable(drained, t.customer, split.net), t.vendor, split.vendorCut)
    else AddAvailable(drained, t.vendor, split.net + split.vendorCut)
  }

  /** `forceRelease` through `completeTrade`: claim DISPUTED, drain the escrow to the fiat payer, post once. */
  function ForceRelease(s: State, id: nat, split: Split): Option<State> {
    if id >= |s.trades| || s.trades[id].status != Disputed || !Fair(split) then None
    else
      var t := s.trades[id];
      if t.vendor >= |s.users| || t.customer >= |s.users| || s.users[Holder(t)].escrow < t.amount then None
      else
        var posted := Post(s.ledger, SettleKey(id), SettleLines(id, t, split));
        if posted.None? then None
        else Some(s.(users := Settled(s.users, t, split), trades := s.trades[id := t.(status := Completed)],
                     pool := s.pool + split.adminCut, ledger := posted.value))
  }

  // ---------------------------------------------------------------- legacy refunds

  /** The mirror-only branch of both rejection handlers. */
  function RefundLegacy(s: State, id: nat, review: bool): Option<State> {
    if id >= |s.legacy| || s.legacy[id].status != (if review then Parked else Live) || s.legacy[id].user >= |s.users|
    then None
    else
      var w := s.legacy[id];
      var source := if w.reserved then RestrictedReserves else EquityTreasury;
      var posted := Post(s.ledger, if review then ReviewKey(id) else RejectKey(id),
                         [Debit(source, w.amount), Credit(Liability(w.user), w.amount)]);
      if posted.None? then None
      else Some(s.(users := AddAvailable(s.users, w.user, w.amount),
                   legacy := s.legacy[id := w.(status := Rejected, reserved := false)], ledger := posted.value))
  }

  // ---------------------------------------------------------------- admin credit

  predicate LiveClaim(c: Claim, admin: int, key: string) {
    c.admin == admin && c.key == key && c.status != Released
  }

  predicate ClaimTaken(claims: seq<Claim>, admin: int, key: string) {
    exists i :: 0 <= i < |claims| && LiveClaim(claims[i], admin, key)
  }

  /** The middleware's unique insert. */
  function MintClaim(s: State, admin: int, key: string, user: nat, amount: int): State {
    if ClaimTaken(s.claims, admin, key) then s
    else s.(claims := s.claims + [Claim(admin, key, user, amount, InProgress)])
  }

  function ReleaseClaim(s: State, k: nat): State {
    if k < |s.claims| && s.claims[k].status == InProgress
    then s.(claims := s.claims[k := s.claims[k].(status := Released)]) else s
  }

  function HashOf(c: Claim): TxHash {
    AdminCredit(c.admin, c.user, c.key)
  }

  predicate Recorded(history: seq<History>, hash: TxHash) {
    exists i :: 0 <= i < |history| && history[i].hash == hash
  }

  /** `creditUserBalance`: economics and the claim's COMMITTED transition in one transaction. */
  function CreditUser(s: State, k: nat): Option<State> {
    if k >= |s.claims| || s.claims[k].amount <= 0 || s.claims[k].user >= |s.users| then None
    else
      var c := s.claims[k];
      if Recorded(s.history, HashOf(c)) || c.status != InProgress then None
      else
        var posted := Post(s.ledger, CreditKey(|s.history|),
                           [Debit(EquityTreasury, c.amount), Credit(Liability(c.user), c.amount)]);
        if posted.None? then None
        else Some(s.(users := AddAvailable(s.users, c.user, c.amount),
                     history := s.history + [History(HashOf(c), c.user, c.amount)],
                     claims := s.claims[k := c.(status := Committed)], ledger := posted.value))
  }

  // ---------------------------------------------------------------- crypto deposit

  /** Whether the raw webhook amount is an exact six-decimal quantity, and which. */
  datatype RawAmount = Inexact | BaseUnits(units: int)

  /** Steps 4 and 5 of `tatumCryptoWebhook`; `registered` when the address has a custody identity. */
  function Deposit(s: State, hash: string, user: nat, raw: RawAmount, registered: bool): Option<State> {
    if raw == Inexact || raw.units <= 0 || !registered || user >= |s.users| then None
    else if Recorded(s.history, OnChain(hash)) then None
    else
      var amount := raw.units * 100;
      var posted := Post(s.ledger, DepositKey(hash),
                         [Debit(UnverifiedCustody, amount), Credit(Liability(user), amount)]);
      if posted.None? then None
      else Some(s.(users := AddAvailable(s.users, user, amount),
                   masterCrypto := s.masterCrypto + amount, hotWallet := s.hotWallet + amount,
                   history := s.history + [History(OnChain(hash), user, amount)], ledger := posted.value))
  }

  // ---------------------------------------------------------------- AZM conversion

  const MIN_CONVERT: int := 10 * UNIT

  function Clamp(x: int, low: int, high: int): int {
    if x < low then low else if x > high then high else x
  }

  /** The nearest integer to n / d, halves up. */
  function RoundDiv(n: int, d: int): int
    requires d > 0
  {
    (2 * n + d) / (2 * d)
  }

  /**
   `getConversionRate` in micro-USDC per AZM: 1000 scaled by a pool health factor between
   0.5 and 1 (the pool over 10,000), times 1.15 for old accounts, rounded to six decimals.
   */
  function Rate(poolSeen: int, holder: bool): int {
    RoundDiv(Clamp(poolSeen, 5_000 * UNIT, 10_000 * UNIT) * (if holder then 115 else 100), 1_000 * UNIT)
  }

  /** Eight-decimal USDC for an eight-decimal AZM amount. */
  function Proceeds(azm: int, rate: int): int {
    RoundDiv(azm * rate, 1_000_000)
  }

  /** One user's conversion logs, oldest first. */
  function LogsOf(conversions: seq<Conversion>, user: nat): seq<Quota.Log> {
    if conversions == [] then []
    else
      var last := conversions[|conversions| - 1];
      LogsOf(conversions[..|conversions| - 1], user) + if last.user == user then [Quota.Log(last.at, last.azm)] else []
  }

  /**
   What a conversion read before its transaction, however long before: the quota over the
   first `logsSeen` conversions at time `checkedAt`, and the pool and account age behind its rate.
   */
  datatype Quote = Quote(logsSeen: nat, checkedAt: int, poolSeen: int, holder: bool)

  predicate QuotaAllows(conversions: seq<Conversion>, user: nat, azm: int, quote: Quote) {
    quote.logsSeen <= |conversions|
    && azm <= Quota.Remaining(LogsOf(conversions[..quote.logsSeen], user), quote.checkedAt)
  }

  /** `convertAzmToUsdc`: quota and rate come from the quote; both debits are conditional at the commit. */
  function Convert(s: State, user: nat, azm: int, quote: Quote, at: int): Option<State> {
    if azm < MIN_CONVERT || !QuotaAllows(s.conversions, user, azm, quote) then None
    else if user >= |s.users| || s.users[user].azm < azm then None
    else
      var rate := Rate(quote.poolSeen, quote.holder);
      var usdc := Proceeds(azm, rate);
      if s.pool < usdc then None
      else
        var posted := Post(s.ledger, ConversionKey(|s.conversions|),
                           [Debit(EquityTreasury, usdc), Credit(Liability(user), usdc)]);
        if posted.None? then None
        else
          var u := s.users[user];
          Some(s.(users := s.users[user := u.(azm := u.azm - azm, available := u.available + usdc)],
                  pool := s.pool - usdc,
                  conversions := s.conversions + [Conversion(user, azm, usdc, rate, at)], ledger := posted.value))
  }

  // ---------------------------------------------------------------- runs

  datatype Step =
    | DoOpen(sell: bool, vendor: nat, customer: nat, amount: int)
    | DoDispute(trade: nat)
    | DoCancel(trade: nat)
    | DoRelease(trade: nat, split: Split)
    | DoNewLegacy(user: nat, amount: int, reserved: bool)
    | DoPark(withdrawal: nat)
    | DoRefund(withdrawal: nat, review: bool)
    | DoMint(admin: int, key: string, user: nat, amount: int)
    | DoReleaseClaim(claim: nat)
    | DoCredit(claim: nat)
    | DoDeposit(hash: string, user: nat, raw: RawAmount, registered: bool)
    | DoConvert(user: nat, azm: int, quote: Quote, at: int)

  function OrElse(r: Option<State>, s: State): State {
    if r.Some? then r.value else s
  }

  /** The transactions that post to the ledger; `None` when one is refused and rolls back. */
  function Attempt(s: State, step: Step): Option<State> {
    match step
    case DoOpen(sell, vendor, customer, amount) => OpenTrade(s, sell, vendor, customer, amount)
    case DoCancel(t) => ForceCancel(s, t)
    case DoRelease(t, split) => ForceRelease(s, t, split)
    case DoRefund(w, review) => RefundLegacy(s, w, review)
    case DoCredit(k) => CreditUser(s, k)
    case DoDeposit(hash, user, raw, registered) => Deposit(s, hash, user, raw, registered)
    case DoConvert(user, azm, quote, at) => Convert(s, user, azm, quote, at)
    case _ => None
  }

  function Next(s: State, step: Step): State {
    match step
    case DoDispute(t) =>
      if t < |s.trades| && s.trades[t].status == Open
      then s.(trades := s.trades[t := s.trades[t].(status := Disputed)]) else s
    case DoNewLegacy(user, amount, reserved) => s.(legacy := s.legacy + [Legacy(user, amount, Live, reserved)])
    case DoPark(w) =>
      if w < |s.legacy| && s.legacy[w].status == Live
      then s.(legacy := s.legacy[w := s.legacy[w].(status := Parked)]) else s
    case DoMint(admin, key, user, amount) => MintClaim(s, admin, key, user, amount)
    case DoReleaseClaim(k) => ReleaseClaim(s, k)
    case _ => OrElse(Attempt(s, step), s)
  }

  function Run(s: State, steps: seq<Step>): State {
    if steps == [] then s else Next(Run(s, steps[..|steps| - 1]), steps[|steps| - 1])
  }

  /** Any customers and platform balances, before the first modelled transaction. */
  predicate Start(s: State) {
    && s.trades == [] && s.legacy == [] && s.claims == [] && s.history == [] && s.conversions == []
    && s.ledger == [] && s.pool >= 0
    && forall u :: 0 <= u < |s.users| ==> s.users[u].azm >= 0 && s.users[u].escrow == 0
  }
}
