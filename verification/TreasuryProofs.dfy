/** Whole-run guarantees about money: the ledger, the balances it mirrors, and what happens exactly once. */
module TreasuryProofs {
  import opened Common
  import opened Ledger
  import opened Treasury

  // ---------------------------------------------------------------- every key belongs to what it records

  predicate Resolved(t: Trade) {
    t.status == Cancelled || t.status == Treasury.Completed
  }

  predicate KeyOk(s: State, key: PostKey) {
    match key
    case LockKey(t) => t < |s.trades|
    case CancelKey(t) => t < |s.trades| && s.trades[t].status == Cancelled
    case SettleKey(t) => t < |s.trades| && s.trades[t].status == Treasury.Completed
    case RejectKey(w) => w < |s.legacy| && s.legacy[w].status == Rejected
    case ReviewKey(w) => w < |s.legacy| && s.legacy[w].status == Rejected
    case CreditKey(h) => h < |s.history|
    case DepositKey(hash) => Recorded(s.history, OnChain(hash))
    case ConversionKey(n) => n < |s.conversions|
  }

  predicate KeysOk(s: State) {
    forall i :: 0 <= i < |s.ledger| ==> KeyOk(s, s.ledger[i].key)
  }

  predicate TradersExist(s: State) {
    forall t :: 0 <= t < |s.trades| ==> s.trades[t].vendor < |s.users| && s.trades[t].customer < |s.users|
  }

  /** The posting a step adds, if any. */
  function NewKey(s: State, step: Step): Option<PostKey> {
    match step
    case DoOpen(_, _, _, _) => Some(LockKey(|s.trades|))
    case DoCancel(t) => Some(CancelKey(t))
    case DoRelease(t, _) => Some(SettleKey(t))
    case DoRefund(w, review) => Some(if review then ReviewKey(w) else RejectKey(w))
    case DoCredit(_) => Some(CreditKey(|s.history|))
    case DoDeposit(hash, _, _, _) => Some(DepositKey(hash))
    case DoConvert(_, _, _, _) => Some(ConversionKey(|s.conversions|))
    case _ => None
  }

  /** The lines it posts there. */
  function NewLines(s: State, step: Step): seq<Line> {
    match step
    case DoOpen(sell, vendor, customer, amount) =>
      [Debit(Source(Trade(sell, vendor, customer, amount, Open)), amount), Credit(TradeEscrow(|s.trades|), amount)]
    case DoCancel(t) =>
      if t < |s.trades| then
        [Debit(TradeEscrow(t), s.trades[t].amount), Credit(Source(s.trades[t]), s.trades[t].amount)]
      else []
    case DoRelease(t, split) => if t < |s.trades| then SettleLines(t, s.trades[t], split) else []
    case DoRefund(w, _) =>
      if w < |s.legacy| then
        [Debit(if s.legacy[w].reserved then RestrictedReserves else EquityTreasury, s.legacy[w].amount),
         Credit(Liability(s.legacy[w].user), s.legacy[w].amount)]
      else []
    case DoCredit(k) =>
      if k < |s.claims| then
        [Debit(EquityTreasury, s.claims[k].amount), Credit(Liability(s.claims[k].user), s.claims[k].amount)]
      else []
    case DoDeposit(_, user, raw, _) =>
      if raw.BaseUnits? then [Debit(UnverifiedCustody, raw.units * 100), Credit(Liability(user), raw.units * 100)]
      else []
    case DoConvert(user, azm, quote, _) =>
      var usdc := Proceeds(azm, Rate(quote.poolSeen, quote.holder));
      [Debit(EquityTreasury, usdc), Credit(Liability(user), usdc)]
    case _ => []
  }

  predicate Commits(s: State, step: Step) {
    Attempt(s, step).Some?
  }

  predicate MovesTrades(step: Step) {
    step.DoOpen? || step.DoDispute? || step.DoCancel? || step.DoRelease?
  }

  /** The ledger after the step: one new posting under an unused key if it commits, untouched if not. */
  predicate Appends(s: State, step: Step) {
    if Commits(s, step) then
      && Accepts(NewLines(s, step)) && !HasKey(s.ledger, NewKey(s, step).value)
      && Next(s, step).ledger == s.ledger + [Posting(NewKey(s, step).value, NewLines(s, step))]
    else Next(s, step).ledger == s.ledger
  }

  lemma TradePostsOnce(s: State, step: Step)
    requires KeysOk(s) && MovesTrades(step)
    ensures Appends(s, step)
  {
  }

  lemma OtherPostsOnce(s: State, step: Step)
    requires KeysOk(s) && !MovesTrades(step)
    ensures Appends(s, step)
  {
  }

  /** A step that commits posts under a key never used before, so its posting is appended, never replayed. */
  lemma PostsOnce(s: State, step: Step)
    requires KeysOk(s)
    ensures Appends(s, step)
  {
    if MovesTrades(step) {
      TradePostsOnce(s, step);
    } else {
      OtherPostsOnce(s, step);
    }
  }

  lemma HistoryGrows(s: State, step: Step, hash: TxHash)
    requires Recorded(s.history, hash)
    ensures Recorded(Next(s, step).history, hash)
  {
    var i :| 0 <= i < |s.history| && s.history[i].hash == hash;
    assert Next(s, step).history[i].hash == hash;
  }

  lemma KeySurvives(s: State, step: Step, key: PostKey)
    requires KeyOk(s, key)
    ensures KeyOk(Next(s, step), key)
  {
    if key.DepositKey? {
      HistoryGrows(s, step, OnChain(key.txHash));
    }
  }

  lemma NewKeyOk(s: State, step: Step)
    requires Commits(s, step)
    ensures KeyOk(Next(s, step), NewKey(s, step).value)
  {
    if step.DoDeposit? {
      assert Next(s, step).history[|s.history|].hash == OnChain(step.hash);
    }
  }

  lemma KeysKept(s: State, step: Step)
    requires KeysOk(s)
    ensures KeysOk(Next(s, step))
  {
    var s' := Next(s, step);
    PostsOnce(s, step);
    forall i | 0 <= i < |s'.ledger|
      ensures KeyOk(s', s'.ledger[i].key)
    {
      if i < |s.ledger| {
        assert s'.ledger[i] == s.ledger[i];
        KeySurvives(s, step, s.ledger[i].key);
      } else {
        NewKeyOk(s, step);
      }
    }
  }

  // ---------------------------------------------------------------- what each posting does to an account

  lemma {:induction false} FeeEffect(amount: int, split: Split, account: Account)
    ensures account != FeeRevenue ==> LinesBalance(FeeLines(amount, split), account) == 0
  {
    var credit := split.adminCut + Positive(Dust(amount, split));
    var debit := Positive(-Dust(amount, split));
    LinesAppend([], Credit(FeeRevenue, credit), account);
    LinesAppend([], Debit(FeeRevenue, debit), account);
    LinesAppend([Credit(FeeRevenue, credit)], Debit(FeeRevenue, debit), account);
    assert [] + [Credit(FeeRevenue, credit)] == [Credit(FeeRevenue, credit)];
    assert [] + [Debit(FeeRevenue, debit)] == [Debit(FeeRevenue, debit)];
    assert [Credit(FeeRevenue, credit)] + [] == [Credit(FeeRevenue, credit)];
  }

  lemma {:induction false} LinesConcat(a: seq<Line>, b: seq<Line>, account: Account)
    ensures LinesBalance(a + b, account) == LinesBalance(a, account) + LinesBalance(b, account)
  {
    if b == [] {
      assert a + b == a;
    } else {
      LinesConcat(a, b[..|b| - 1], account);
      assert (a + b)[..|a + b| - 1] == a + b[..|b| - 1];
    }
  }

  function If(condition: bool, amount: int): int {
    if condition then amount else 0
  }

  function Signed(l: Line, account: Account): int {
    If(l.account == account, l.credit - l.debit)
  }

  lemma {:induction false} TwoLines(a: Line, b: Line, account: Account)
    ensures LinesBalance([a, b], account) == Signed(a, account) + Signed(b, account)
  {
    LinesAppend([], a, account);
    LinesAppend([a], b, account);
    assert [] + [a] == [a] && [a] + [b] == [a, b];
  }

  lemma {:induction false} ThreeLines(a: Line, b: Line, c: Line, account: Account)
    ensures LinesBalance([a, b, c], account) == Signed(a, account) + Signed(b, account) + Signed(c, account)
  {
    TwoLines(a, b, account);
    LinesAppend([a, b], c, account);
    assert [a, b] + [c] == [a, b, c];
  }

  lemma {:induction false} SettleEffect(id: nat, t: Trade, split: Split, account: Account)
    ensures account != FeeRevenue ==>
              LinesBalance(SettleLines(id, t, split), account)
              == (if t.sell then If(account == Liability(t.customer), split.net)
                                 + If(account == Liability(t.vendor), split.vendorCut)
                  else If(account == Liability(t.vendor), split.net + split.vendorCut))
                 - If(account == TradeEscrow(id), t.amount)
  {
    FeeEffect(t.amount, split, account);
    LinesConcat(ShareLines(id, t, split), FeeLines(t.amount, split), account);
    var escrow := Debit(TradeEscrow(id), t.amount);
    if t.sell {
      ThreeLines(escrow, Credit(Liability(t.customer), split.net), Credit(Liability(t.vendor), split.vendorCut),
                 account);
    } else {
      TwoLines(escrow, Credit(Liability(t.vendor), split.net + split.vendorCut), account);
    }
  }

  /** What a committed step adds to an account: the balance change its posting makes. */
  function Effect(s: State, step: Step, account: Account): int {
    match step
    case DoOpen(sell, vendor, customer, amount) =>
      If(account == TradeEscrow(|s.trades|), amount)
      - If(account == (if sell then Unallocated(vendor) else Liability(customer)), amount)
    case DoCancel(t) =>
      if t < |s.trades| then If(account == Source(s.trades[t]), s.trades[t].amount)
                             - If(account == TradeEscrow(t), s.trades[t].amount) else 0
    case DoRelease(t, split) =>
      if t < |s.trades| then
        (if s.trades[t].sell then If(account == Liability(s.trades[t].customer), split.net)
                                  + If(account == Liability(s.trades[t].vendor), split.vendorCut)
         else If(account == Liability(s.trades[t].vendor), split.net + split.vendorCut))
        - If(account == TradeEscrow(t), s.trades[t].amount)
      else 0
    case DoRefund(w, _) =>
      if w < |s.legacy| then If(account == Liability(s.legacy[w].user), s.legacy[w].amount) else 0
    case DoCredit(k) =>
      if k < |s.claims| then If(account == Liability(s.claims[k].user), s.claims[k].amount) else 0
    case DoDeposit(_, user, raw, _) =>
      if raw.BaseUnits? then If(account == Liability(user), raw.units * 100)
                             - If(account == UnverifiedCustody, raw.units * 100) else 0
    case DoConvert(user, azm, quote, _) =>
      If(account == Liability(user), Proceeds(azm, Rate(quote.poolSeen, quote.holder)))
    case _ => 0
  }

  /** The accounts whose balances the platform stores as customer columns, plus the deposit clearing account. */
  predicate Mirrored(account: Account) {
    account.Liability? || account.Unallocated? || account.TradeEscrow? || account.UnverifiedCustody?
  }

  lemma TradeLinesEffect(s: State, step: Step, account: Account)
    requires Mirrored(account) && MovesTrades(step)
    ensures LinesBalance(NewLines(s, step), account) == Effect(s, step, account)
  {
    match step
    case DoOpen(sell, vendor, customer, amount) =>
      TransferLines(Source(Trade(sell, vendor, customer, amount, Open)), TradeEscrow(|s.trades|), amount, account);
    case DoDispute(_) =>
    case DoCancel(t) =>
      if t < |s.trades| { TransferLines(TradeEscrow(t), Source(s.trades[t]), s.trades[t].amount, account); }
    case DoRelease(t, split) => if t < |s.trades| { SettleEffect(t, s.trades[t], split, account); }
  }

  lemma LinesEffect(s: State, step: Step, account: Account)
    requires Mirrored(account)
    ensures LinesBalance(NewLines(s, step), account) == Effect(s, step, account)
  {
    if MovesTrades(step) {
      TradeLinesEffect(s, step, account);
    } else {
      match step
      case DoRefund(w, _) =>
        if w < |s.legacy| {
          TransferLines(if s.legacy[w].reserved then RestrictedReserves else EquityTreasury,
                        Liability(s.legacy[w].user), s.legacy[w].amount, account);
        }
      case DoCredit(k) =>
        if k < |s.claims| {
          TransferLines(EquityTreasury, Liability(s.claims[k].user), s.claims[k].amount, account);
        }
      case DoDeposit(_, user, raw, _) =>
        if raw.BaseUnits? { TransferLines(UnverifiedCustody, Liability(user), raw.units * 100, account); }
      case DoConvert(user, azm, quote, _) =>
        TransferLines(EquityTreasury, Liability(user), Proceeds(azm, Rate(quote.poolSeen, quote.holder)), account);
      case _ =>
    }
  }

  lemma LedgerEffect(s: State, step: Step, account: Account)
    requires KeysOk(s) && Mirrored(account)
    ensures Balance(Next(s, step).ledger, account)
         == Balance(s.ledger, account) + If(Commits(s, step), Effect(s, step, account))
  {
    PostsOnce(s, step);
    if Commits(s, step) {
      LinesEffect(s, step, account);
      BalanceAppend(s.ledger, Posting(NewKey(s, step).value, NewLines(s, step)), account);
    }
  }

  // ---------------------------------------------------------------- stored balances follow the ledger

  /** Between two states, each customer's columns moved exactly as the ledger accounts behind them. */
  predicate MovesTogether(s: State, s': State, u: nat) {
    && u < |s.users| == |s'.users|
    && s'.users[u].available - s.users[u].available
       == Balance(s'.ledger, Liability(u)) - Balance(s.ledger, Liability(u))
    && s'.users[u].unallocated - s.users[u].unallocated
       == Balance(s'.ledger, Unallocated(u)) - Balance(s.ledger, Unallocated(u))
  }

  predicate ColumnsMove(s: State, step: Step, u: nat) {
    var s' := Next(s, step);
    && u < |s.users| == |s'.users|
    && s'.users[u].available == s.users[u].available + If(Commits(s, step), Effect(s, step, Liability(u)))
    && s'.users[u].unallocated == s.users[u].unallocated + If(Commits(s, step), Effect(s, step, Unallocated(u)))
  }

  lemma SettledColumns(users: seq<User>, t: Trade, split: Split, u: nat)
    requires t.vendor < |users| && t.customer < |users| && u < |users|
    ensures var paid := Settled(users, t, split);
            && |paid| == |users| && paid[u].unallocated == users[u].unallocated
            && paid[u].available
               == users[u].available
                  + if t.sell then If(u == t.customer, split.net) + If(u == t.vendor, split.vendorCut)
                    else If(u == t.vendor, split.net + split.vendorCut)
  {
  }

  lemma TradeColumns(s: State, step: Step, u: nat)
    requires TradersExist(s) && u < |s.users| && MovesTrades(step)
    ensures ColumnsMove(s, step, u)
  {
    if step.DoRelease? {
      if step.trade < |s.trades| {
        SettledColumns(s.users, s.trades[step.trade], step.split, u);
      }
    }
  }

  lemma OtherColumns(s: State, step: Step, u: nat)
    requires u < |s.users| && !MovesTrades(step)
    ensures ColumnsMove(s, step, u)
  {
  }

  lemma {:induction false} AvailableMoves(s: State, step: Step, u: nat)
    requires TradersExist(s) && u < |s.users|
    ensures ColumnsMove(s, step, u)
  {
    if MovesTrades(step) {
      TradeColumns(s, step, u);
    } else {
      OtherColumns(s, step, u);
    }
  }

  lemma NextMovesTogether(s: State, step: Step, u: nat)
    requires KeysOk(s) && TradersExist(s) && u < |s.users|
    ensures MovesTogether(s, Next(s, step), u)
  {
    AvailableMoves(s, step, u);
    LedgerEffect(s, step, Liability(u));
    LedgerEffect(s, step, Unallocated(u));
  }

  // ---------------------------------------------------------------- escrow leaves once

  /** The principal of a customer's unresolved trades. */
  function Locked(trades: seq<Trade>, u: nat): int {
    if trades == [] then 0
    else Locked(trades[..|trades| - 1], u) + Share(trades[|trades| - 1], u)
  }

  function Share(t: Trade, u: nat): int {
    If(!Resolved(t) && Holder(t) == u, t.amount)
  }

  lemma LockedAppend(trades: seq<Trade>, t: Trade, u: nat)
    ensures Locked(trades + [t], u) == Locked(trades, u) + Share(t, u)
  {
    assert (trades + [t])[..|trades|] == trades;
  }

  lemma {:induction false} LockedUpdate(trades: seq<Trade>, id: nat, t: Trade, u: nat)
    requires id < |trades|
    ensures Locked(trades[id := t], u) == Locked(trades, u) - Share(trades[id], u) + Share(t, u)
  {
    var n := |trades| - 1;
    if id == n {
      assert trades[id := t][..n] == trades[..n];
    } else {
      assert trades[id := t][..n] == trades[..n][id := t];
      LockedUpdate(trades[..n], id, t, u);
    }
  }

  predicate AmountsPositive(s: State) {
    forall t :: 0 <= t < |s.trades| ==> s.trades[t].amount > 0
  }

  predicate EscrowOk(s: State) {
    forall u :: 0 <= u < |s.users| ==> s.users[u].escrow == Locked(s.trades, u)
  }

  /** A trade's escrow account holds its principal until it is resolved, and nothing afterwards. */
  predicate EscrowAccountOk(s: State, t: nat) {
    Balance(s.ledger, TradeEscrow(t)) == Principal(s.trades, t)
  }

  function Principal(trades: seq<Trade>, t: nat): int {
    if t < |trades| && !Resolved(trades[t]) then trades[t].amount else 0
  }

  lemma TradesKept(s: State, step: Step)
    requires KeysOk(s) && TradersExist(s) && AmountsPositive(s)
    ensures TradersExist(Next(s, step)) && AmountsPositive(Next(s, step))
  {
    PostsOnce(s, step);
    if step.DoOpen? && Commits(s, step) {
      assert LineOk(NewLines(s, step)[0]);
    }
  }

  lemma OthersKeepEscrow(s: State, step: Step, u: nat)
    requires u < |s.users| && !MovesTrades(step)
    ensures Next(s, step).trades == s.trades && |Next(s, step).users| == |s.users|
    ensures Next(s, step).users[u].escrow == s.users[u].escrow
  {
  }

  lemma OpenEscrow(s: State, sell: bool, vendor: nat, customer: nat, amount: int, u: nat)
    requires u < |s.users| && s.users[u].escrow == Locked(s.trades, u)
    ensures var s' := OrElse(OpenTrade(s, sell, vendor, customer, amount), s);
            |s'.users| == |s.users| && s'.users[u].escrow == Locked(s'.trades, u)
  {
    LockedAppend(s.trades, Trade(sell, vendor, customer, amount, Open), u);
  }

  lemma EscrowKept(s: State, step: Step, u: nat)
    requires u < |s.users| && s.users[u].escrow == Locked(s.trades, u)
    ensures |Next(s, step).users| == |s.users| && Next(s, step).users[u].escrow == Locked(Next(s, step).trades, u)
  {
    if !MovesTrades(step) {
      OthersKeepEscrow(s, step, u);
    } else {
      match step
      case DoOpen(sell, vendor, customer, amount) => OpenEscrow(s, sell, vendor, customer, amount, u);
      case DoDispute(t) => if t < |s.trades| { LockedUpdate(s.trades, t, s.trades[t].(status := Disputed), u); }
      case DoCancel(t) => CancelEscrow(s, t, u);
      case DoRelease(t, split) => ReleaseEscrow(s, t, split, u);
    }
  }

  lemma CancelEscrow(s: State, t: nat, u: nat)
    requires u < |s.users| && s.users[u].escrow == Locked(s.trades, u)
    ensures var s' := OrElse(ForceCancel(s, t), s);
            |s'.users| == |s.users| && s'.users[u].escrow == Locked(s'.trades, u)
  {
    if ForceCancel(s, t).Some? {
      LockedUpdate(s.trades, t, s.trades[t].(status := Cancelled), u);
    }
  }

  lemma ReleaseEscrow(s: State, t: nat, split: Split, u: nat)
    requires u < |s.users| && s.users[u].escrow == Locked(s.trades, u)
    ensures var s' := OrElse(ForceRelease(s, t, split), s);
            |s'.users| == |s.users| && s'.users[u].escrow == Locked(s'.trades, u)
  {
    if ForceRelease(s, t, split).Some? {
      LockedUpdate(s.trades, t, s.trades[t].(status := Treasury.Completed), u);
    }
  }

  lemma PrincipalMoves(s: State, step: Step, t: nat)
    ensures Principal(Next(s, step).trades, t)
         == Principal(s.trades, t) + If(Commits(s, step), Effect(s, step, TradeEscrow(t)))
  {
  }

  lemma EscrowAccountKept(s: State, step: Step, t: nat)
    requires KeysOk(s) && EscrowAccountOk(s, t)
    ensures EscrowAccountOk(Next(s, step), t)
  {
    LedgerEffect(s, step, TradeEscrow(t));
    PrincipalMoves(s, step, t);
  }

  predicate IsExit(key: PostKey, t: nat) {
    key == CancelKey(t) || key == SettleKey(t)
  }

  /** Postings that drain a trade's escrow. */
  function Exits(ledger: seq<Posting>, t: nat): nat {
    if ledger == [] then 0
    else Exits(ledger[..|ledger| - 1], t) + if IsExit(ledger[|ledger| - 1].key, t) then 1 else 0
  }

  predicate ExitsOk(s: State, t: nat) {
    Exits(s.ledger, t) == if t < |s.trades| && Resolved(s.trades[t]) then 1 else 0
  }

  /** A trade becomes resolved exactly when a committed step posts one of its exits. */
  lemma ResolvedByExit(s: State, step: Step, t: nat)
    ensures var s' := Next(s, step);
            && (Commits(s, step) && IsExit(NewKey(s, step).value, t) ==> t < |s.trades| && !Resolved(s.trades[t]))
            && ((t < |s'.trades| && Resolved(s'.trades[t]))
                <==> (t < |s.trades| && Resolved(s.trades[t]))
                     || (Commits(s, step) && IsExit(NewKey(s, step).value, t)))
  {
  }

  lemma {:induction false} ExitsKept(s: State, step: Step, t: nat)
    requires KeysOk(s) && ExitsOk(s, t)
    ensures ExitsOk(Next(s, step), t)
  {
    PostsOnce(s, step);
    ResolvedByExit(s, step, t);
    if Commits(s, step) {
      assert Next(s, step).ledger[..|s.ledger|] == s.ledger;
    }
  }

  // ---------------------------------------------------------------- exactly-once credits and deposits

  predicate DistinctHashes(history: seq<History>) {
    forall i, j :: 0 <= i < j < |history| ==> history[i].hash != history[j].hash
  }

  predicate ClaimsDistinct(claims: seq<Claim>) {
    forall i, j :: 0 <= i < j < |claims| && claims[i].status != Released && claims[j].status != Released ==>
      claims[i].admin != claims[j].admin || claims[i].key != claims[j].key
  }

  predicate HasRow(history: seq<History>, c: Claim) {
    exists h :: 0 <= h < |history| && history[h] == History(HashOf(c), c.user, c.amount)
  }

  predicate IsCommitted(claims: seq<Claim>, hash: TxHash) {
    exists k :: 0 <= k < |claims| && claims[k].status == Committed && HashOf(claims[k]) == hash
  }

  predicate ClaimsOk(s: State) {
    && DistinctHashes(s.history)
    && ClaimsDistinct(s.claims)
    && (forall k :: 0 <= k < |s.claims| && s.claims[k].status == Committed ==> HasRow(s.history, s.claims[k]))
    && (forall h :: 0 <= h < |s.history| && s.history[h].hash.AdminCredit? ==>
          IsCommitted(s.claims, s.history[h].hash))
  }

  /** The one posting that backs a history row. */
  function RowPosting(h: nat, row: History): Posting {
    match row.hash
    case AdminCredit(_, _, _) =>
      Posting(CreditKey(h), [Debit(EquityTreasury, row.amount), Credit(Liability(row.user), row.amount)])
    case OnChain(hash) =>
      Posting(DepositKey(hash), [Debit(UnverifiedCustody, row.amount), Credit(Liability(row.user), row.amount)])
  }

  function KeyCount(ledger: seq<Posting>, key: PostKey): nat {
    if ledger == [] then 0
    else KeyCount(ledger[..|ledger| - 1], key) + if ledger[|ledger| - 1].key == key then 1 else 0
  }

  /** Every history row is backed by exactly one posting, of its own amount to its own user. */
  predicate RowsBacked(history: seq<History>, ledger: seq<Posting>) {
    forall h :: 0 <= h < |history| ==> RowBacked(h, history[h], ledger)
  }

  predicate RowBacked(h: nat, row: History, ledger: seq<Posting>) {
    RowPosting(h, row) in ledger && KeyCount(ledger, RowPosting(h, row).key) == 1
  }

  predicate RowsPosted(s: State) {
    RowsBacked(s.history, s.ledger)
  }

  lemma {:induction false} UnusedKey(ledger: seq<Posting>, key: PostKey)
    requires !HasKey(ledger, key)
    ensures KeyCount(ledger, key) == 0
  {
    if ledger != [] {
      assert ledger[|ledger| - 1].key != key;
      assert forall i :: 0 <= i < |ledger| - 1 ==> ledger[..|ledger| - 1][i] == ledger[i];
      UnusedKey(ledger[..|ledger| - 1], key);
    }
  }

  /** A posting in the ledger is unaffected by one appended under an unused key. */
  lemma PostingSurvives(ledger: seq<Posting>, added: Posting, p: Posting)
    requires p in ledger && KeyCount(ledger, p.key) == 1 && !HasKey(ledger, added.key)
    ensures p in ledger + [added] && KeyCount(ledger + [added], p.key) == 1
  {
    var i :| 0 <= i < |ledger| && ledger[i] == p;
    assert p.key != added.key;
    assert (ledger + [added])[..|ledger|] == ledger;
  }

  lemma RowsExtend(history: seq<History>, history': seq<History>, ledger: seq<Posting>, added: Posting)
    requires RowsBacked(history, ledger) && !HasKey(ledger, added.key)
    requires history <= history' && |history'| <= |history| + 1
    requires |history'| > |history| ==> RowPosting(|history|, history'[|history|]) == added
    ensures RowsBacked(history', ledger + [added])
  {
    forall h | 0 <= h < |history'|
      ensures RowBacked(h, history'[h], ledger + [added])
    {
      if h < |history| {
        assert RowBacked(h, history[h], ledger);
        PostingSurvives(ledger, added, RowPosting(h, history[h]));
      } else {
        UnusedKey(ledger, added.key);
        assert (ledger + [added])[..|ledger|] == ledger;
        assert (ledger + [added])[|ledger|] == added;
      }
    }
  }

  /** A step that adds a history row posts that row's own entry. */
  lemma NewRowPosting(s: State, step: Step)
    requires Commits(s, step)
    ensures var s' := Next(s, step);
            && s.history <= s'.history && |s'.history| <= |s.history| + 1
            && (|s'.history| > |s.history| ==>
                  RowPosting(|s.history|, s'.history[|s.history|]) == Posting(NewKey(s, step).value, NewLines(s, step)))
  {
  }

  lemma RowsKept(s: State, step: Step)
    requires KeysOk(s) && RowsPosted(s)
    ensures RowsPosted(Next(s, step))
  {
    PostsOnce(s, step);
    if Commits(s, step) {
      NewRowPosting(s, step);
      RowsExtend(s.history, Next(s, step).history, s.ledger, Posting(NewKey(s, step).value, NewLines(s, step)));
    } else {
      assert Next(s, step).history == s.history;
    }
  }

  lemma ClaimsKept(s: State, step: Step)
    requires ClaimsOk(s)
    ensures ClaimsOk(Next(s, step))
  {
    match step
    case DoMint(admin, key, user, amount) => MintKeeps(s, admin, key, user, amount);
    case DoReleaseClaim(k) => ReleaseKeeps(s, k);
    case DoCredit(k) => CreditKeeps(s, k);
    case DoDeposit(hash, user, raw, registered) => DepositKeeps(s, hash, user, raw, registered);
    case _ => assert Next(s, step).claims == s.claims && Next(s, step).history == s.history;
  }

  lemma CommittedSurvives(claims: seq<Claim>, claims': seq<Claim>, hash: TxHash)
    requires IsCommitted(claims, hash) && |claims| <= |claims'|
    requires forall k :: 0 <= k < |claims| && claims[k].status == Committed ==> claims'[k] == claims[k]
    ensures IsCommitted(claims', hash)
  {
    var k :| 0 <= k < |claims| && claims[k].status == Committed && HashOf(claims[k]) == hash;
    assert claims'[k] == claims[k];
  }

  lemma RowSurvives(history: seq<History>, row: History, c: Claim)
    requires HasRow(history, c)
    ensures HasRow(history + [row], c)
  {
    var h :| 0 <= h < |history| && history[h] == History(HashOf(c), c.user, c.amount);
    assert (history + [row])[h] == history[h];
  }

  lemma MintKeeps(s: State, admin: int, key: string, user: nat, amount: int)
    requires ClaimsOk(s)
    ensures ClaimsOk(MintClaim(s, admin, key, user, amount))
  {
    var s' := MintClaim(s, admin, key, user, amount);
    forall h | 0 <= h < |s'.history| && s'.history[h].hash.AdminCredit?
      ensures IsCommitted(s'.claims, s'.history[h].hash)
    {
      CommittedSurvives(s.claims, s'.claims, s.history[h].hash);
    }
  }

  lemma ReleaseKeeps(s: State, k: nat)
    requires ClaimsOk(s)
    ensures ClaimsOk(ReleaseClaim(s, k))
  {
    var s' := ReleaseClaim(s, k);
    forall h | 0 <= h < |s'.history| && s'.history[h].hash.AdminCredit?
      ensures IsCommitted(s'.claims, s'.history[h].hash)
    {
      CommittedSurvives(s.claims, s'.claims, s.history[h].hash);
    }
  }

  lemma CreditKeeps(s: State, k: nat)
    requires ClaimsOk(s)
    ensures ClaimsOk(OrElse(CreditUser(s, k), s))
  {
    var s' := OrElse(CreditUser(s, k), s);
    if s' != s {
      var row := s'.history[|s.history|];
      assert s'.history == s.history + [row];
      forall i | 0 <= i < |s'.claims| && s'.claims[i].status == Committed
        ensures HasRow(s'.history, s'.claims[i])
      {
        if i == k {
          assert s'.history[|s.history|] == History(HashOf(s'.claims[k]), s'.claims[k].user, s'.claims[k].amount);
        } else {
          RowSurvives(s.history, row, s.claims[i]);
        }
      }
      forall h | 0 <= h < |s'.history| && s'.history[h].hash.AdminCredit?
        ensures IsCommitted(s'.claims, s'.history[h].hash)
      {
        if h == |s.history| {
          assert HashOf(s'.claims[k]) == s'.history[h].hash;
        } else {
          CommittedSurvives(s.claims, s'.claims, s.history[h].hash);
        }
      }
    }
  }

  lemma DepositKeeps(s: State, hash: string, user: nat, raw: RawAmount, registered: bool)
    requires ClaimsOk(s)
    ensures ClaimsOk(OrElse(Deposit(s, hash, user, raw, registered), s))
  {
    var s' := OrElse(Deposit(s, hash, user, raw, registered), s);
    if s' != s {
      var row := s'.history[|s.history|];
      assert s'.history == s.history + [row];
      forall i | 0 <= i < |s'.claims| && s'.claims[i].status == Committed
        ensures HasRow(s'.history, s'.claims[i])
      {
        RowSurvives(s.history, row, s.claims[i]);
      }
    }
  }

  // ---------------------------------------------------------------- theorems over whole runs

  predicate Inv(s: State) {
    KeysOk(s) && TradersExist(s) && AmountsPositive(s) && ClaimsOk(s) && RowsPosted(s) && Total(s.ledger) == 0
  }

  lemma NextKeepsInv(s: State, step: Step)
    requires Inv(s)
    ensures Inv(Next(s, step))
  {
    KeysKept(s, step);
    TradesKept(s, step);
    ClaimsKept(s, step);
    RowsKept(s, step);
    PostsOnce(s, step);
    if Commits(s, step) {
      BalanceAppend(s.ledger, Posting(NewKey(s, step).value, NewLines(s, step)), EquityTreasury);
    }
  }

  lemma NextKeepsUsers(s: State, step: Step)
    requires Inv(s)
    ensures |Next(s, step).users| == |s.users|
  {
    if s.users != [] {
      AvailableMoves(s, step, 0);
    }
  }

  lemma {:induction false} RunKeepsInv(s: State, steps: seq<Step>)
    requires Inv(s)
    ensures Inv(Run(s, steps)) && |Run(s, steps).users| == |s.users|
  {
    if steps != [] {
      RunKeepsInv(s, steps[..|steps| - 1]);
      NextKeepsInv(Run(s, steps[..|steps| - 1]), steps[|steps| - 1]);
      NextKeepsUsers(Run(s, steps[..|steps| - 1]), steps[|steps| - 1]);
    }
  }

  /** Over every run the whole ledger sums to zero. */
  lemma {:induction false} LedgerSumsToZero(start: State, steps: seq<Step>)
    requires Start(start)
    ensures Total(Run(start, steps).ledger) == 0
  {
    RunKeepsInv(start, steps);
  }

  /** From any reachable state, over every run, available and unallocated balances move as their accounts do. */
  lemma {:induction false} BalancesFollowLedger(s: State, steps: seq<Step>, u: nat)
    requires Inv(s) && u < |s.users|
    ensures MovesTogether(s, Run(s, steps), u)
  {
    if steps != [] {
      var mid := Run(s, steps[..|steps| - 1]);
      BalancesFollowLedger(s, steps[..|steps| - 1], u);
      RunKeepsInv(s, steps[..|steps| - 1]);
      NextMovesTogether(mid, steps[|steps| - 1], u);
    }
  }

  /** The ledger balance of every escrow account a customer holds. */
  function HeldInLedger(trades: seq<Trade>, ledger: seq<Posting>, u: nat): int {
    if trades == [] then 0
    else HeldInLedger(trades[..|trades| - 1], ledger, u)
         + If(Holder(trades[|trades| - 1]) == u, Balance(ledger, TradeEscrow(|trades| - 1)))
  }

  lemma {:induction false} HeldIsLocked(trades: seq<Trade>, ledger: seq<Posting>, u: nat)
    requires forall t :: 0 <= t < |trades| ==> Balance(ledger, TradeEscrow(t)) == Principal(trades, t)
    ensures HeldInLedger(trades, ledger, u) == Locked(trades, u)
  {
    if trades != [] {
      var shorter := trades[..|trades| - 1];
      forall t | 0 <= t < |shorter|
        ensures Balance(ledger, TradeEscrow(t)) == Principal(shorter, t)
      {
        assert Principal(shorter, t) == Principal(trades, t);
      }
      HeldIsLocked(shorter, ledger, u);
      var last := |trades| - 1;
      assert Balance(ledger, TradeEscrow(last)) == Principal(trades, last);
    }
  }

  lemma {:induction false} LockedNonNegative(trades: seq<Trade>, u: nat)
    requires forall t :: 0 <= t < |trades| ==> trades[t].amount > 0
    ensures Locked(trades, u) >= 0
  {
    if trades != [] {
      LockedNonNegative(trades[..|trades| - 1], u);
    }
  }

  lemma {:induction false} EscrowInvariant(start: State, steps: seq<Step>, u: nat, t: nat)
    requires Start(start) && u < |start.users|
    ensures var s := Run(start, steps);
            |s.users| == |start.users| && s.users[u].escrow == Locked(s.trades, u)
            && EscrowAccountOk(s, t) && ExitsOk(s, t)
  {
    if steps != [] {
      var mid := Run(start, steps[..|steps| - 1]);
      EscrowInvariant(start, steps[..|steps| - 1], u, t);
      RunKeepsInv(start, steps[..|steps| - 1]);
      EscrowKept(mid, steps[|steps| - 1], u);
      EscrowAccountKept(mid, steps[|steps| - 1], t);
      ExitsKept(mid, steps[|steps| - 1], t);
    }
  }

  /**
   Under any number of stale force-cancels and force-releases a customer's escrow column is
   the principal of its unresolved trades, equals its escrow accounts in the ledger, and is
   never negative; each trade's escrow is drained by one posting if resolved and by none before.
   */
  lemma EscrowSingleExit(start: State, steps: seq<Step>, u: nat, t: nat)
    requires Start(start) && u < |start.users|
    ensures var s := Run(start, steps);
            && |s.users| == |start.users|
            && s.users[u].escrow == Locked(s.trades, u) == HeldInLedger(s.trades, s.ledger, u)
            && s.users[u].escrow >= 0
            && Exits(s.ledger, t) == (if t < |s.trades| && Resolved(s.trades[t]) then 1 else 0)
  {
    var s := Run(start, steps);
    EscrowInvariant(start, steps, u, t);
    RunKeepsInv(start, steps);
    forall x | 0 <= x < |s.trades|
      ensures Balance(s.ledger, TradeEscrow(x)) == Principal(s.trades, x)
    {
      EscrowInvariant(start, steps, u, x);
    }
    HeldIsLocked(s.trades, s.ledger, u);
    LockedNonNegative(s.trades, u);
  }

  lemma {:induction false} LockedCovers(trades: seq<Trade>, id: nat, u: nat)
    requires id < |trades| && forall t :: 0 <= t < |trades| ==> trades[t].amount > 0
    ensures Locked(trades, u) >= Share(trades[id], u)
  {
    var n := |trades| - 1;
    if id == n {
      LockedNonNegative(trades[..n], u);
    } else {
      LockedCovers(trades[..n], id, u);
    }
  }

  lemma CancelIffDisputed(s: State, id: nat)
    requires Inv(s) && EscrowOk(s)
    ensures ForceCancel(s, id).Some? <==> id < |s.trades| && s.trades[id].status == Disputed
  {
    if id < |s.trades| && s.trades[id].status == Disputed {
      var t := s.trades[id];
      LockedCovers(s.trades, id, Holder(t));
      TransferLines(TradeEscrow(id), Source(t), t.amount, TradeEscrow(id));
      assert !HasKey(s.ledger, CancelKey(id));
    }
  }

  /**
   A force-cancel takes effect exactly on a disputed trade: neither the non-negative-balance
   constraint nor the ledger ever refuses it.
   */
  lemma {:induction false} CancelSucceedsIffDisputed(start: State, steps: seq<Step>, id: nat)
    requires Start(start)
    ensures var s := Run(start, steps);
            ForceCancel(s, id).Some? <==> id < |s.trades| && s.trades[id].status == Disputed
  {
    var s := Run(start, steps);
    RunKeepsInv(start, steps);
    forall u | 0 <= u < |s.users|
      ensures s.users[u].escrow == Locked(s.trades, u)
    {
      EscrowInvariant(start, steps, u, id);
    }
    CancelIffDisputed(s, id);
  }

  /** What every step keeps and how it moves balances, in one place for the transactions themselves. */
  lemma StepKeepsBooks(s: State, step: Step)
    requires Inv(s) && EscrowOk(s)
    ensures Inv(Next(s, step)) && EscrowOk(Next(s, step))
    ensures forall u :: 0 <= u < |s.users| ==> MovesTogether(s, Next(s, step), u)
  {
    var s' := Next(s, step);
    NextKeepsInv(s, step);
    NextKeepsUsers(s, step);
    forall u | 0 <= u < |s.users|
      ensures MovesTogether(s, s', u) && s'.users[u].escrow == Locked(s'.trades, u)
    {
      NextMovesTogether(s, step, u);
      EscrowKept(s, step, u);
    }
  }

  /** A live claim is COMMITTED exactly when its history row exists; that row is unique and posted exactly once. */
  lemma {:induction false} CreditExactlyOnce(start: State, steps: seq<Step>, k: nat)
    requires Start(start) && k < |Run(start, steps).claims| && Run(start, steps).claims[k].status != Released
    ensures var s := Run(start, steps);
            var c := s.claims[k];
            && (c.status == Committed <==> Recorded(s.history, HashOf(c)))
            && (c.status == Committed ==>
                  exists h :: 0 <= h < |s.history| && s.history[h] == History(HashOf(c), c.user, c.amount)
                              && (forall j :: 0 <= j < |s.history| && j != h ==> s.history[j].hash != HashOf(c))
                              && RowPosting(h, s.history[h]) in s.ledger && KeyCount(s.ledger, CreditKey(h)) == 1)
  {
    RunKeepsInv(start, steps);
    var s := Run(start, steps);
    var c := s.claims[k];
    if Recorded(s.history, HashOf(c)) {
      var h :| 0 <= h < |s.history| && s.history[h].hash == HashOf(c);
      assert IsCommitted(s.claims, s.history[h].hash);
      var i :| 0 <= i < |s.claims| && s.claims[i].status == Committed && HashOf(s.claims[i]) == HashOf(c);
      assert i == k;
    }
    if c.status == Committed {
      assert HasRow(s.history, c);
      var h :| 0 <= h < |s.history| && s.history[h] == History(HashOf(c), c.user, c.amount);
      assert s.history[h].hash == HashOf(c);
    }
  }

  /** On-chain deposits recorded so far. */
  function Deposited(history: seq<History>): int {
    if history == [] then 0
    else Deposited(history[..|history| - 1]) + If(history[|history| - 1].hash.OnChain?, history[|history| - 1].amount)
  }

  lemma DepositedAppend(history: seq<History>, row: History)
    ensures Deposited(history + [row]) == Deposited(history) + If(row.hash.OnChain?, row.amount)
  {
    assert (history + [row])[..|history|] == history;
  }

  predicate DepositsMove(s: State, s': State, amount: int) {
    && s'.masterCrypto == s.masterCrypto + amount && s'.hotWallet == s.hotWallet + amount
    && Deposited(s'.history) == Deposited(s.history) + amount
  }

  lemma {:induction false} DepositMoves(s: State, hash: string, user: nat, raw: RawAmount, registered: bool)
    requires Deposit(s, hash, user, raw, registered).Some?
    ensures DepositsMove(s, Deposit(s, hash, user, raw, registered).value, raw.units * 100)
  {
    DepositedAppend(s.history, History(OnChain(hash), user, raw.units * 100));
  }

  lemma {:induction false} CreditKeepsDeposits(s: State, k: nat)
    ensures DepositsMove(s, OrElse(CreditUser(s, k), s), 0)
  {
    if CreditUser(s, k).Some? {
      var c := s.claims[k];
      DepositedAppend(s.history, History(HashOf(c), c.user, c.amount));
    }
  }

  lemma OthersLeaveHistory(s: State, step: Step)
    requires !step.DoDeposit? && !step.DoCredit?
    ensures var s' := Next(s, step);
            s'.history == s.history && s'.masterCrypto == s.masterCrypto && s'.hotWallet == s.hotWallet
  {
  }

  lemma {:induction false} OthersKeepDeposits(s: State, step: Step)
    requires !step.DoDeposit?
    ensures DepositsMove(s, Next(s, step), 0) && Effect(s, step, UnverifiedCustody) == 0
  {
    if step.DoCredit? {
      CreditKeepsDeposits(s, step.claim);
      assert Next(s, step) == OrElse(CreditUser(s, step.claim), s);
    } else {
      OthersLeaveHistory(s, step);
    }
  }

  function BaseAmount(raw: RawAmount): int {
    if raw.BaseUnits? then raw.units * 100 else 0
  }

  lemma {:induction false} DepositStep(s: State, step: Step)
    requires step.DoDeposit?
    ensures DepositsMove(s, Next(s, step), If(Commits(s, step), BaseAmount(step.raw)))
  {
    var posted := Deposit(s, step.hash, step.user, step.raw, step.registered);
    assert Attempt(s, step) == posted && Next(s, step) == OrElse(posted, s);
    if posted.Some? {
      DepositMoves(s, step.hash, step.user, step.raw, step.registered);
    }
  }

  lemma {:induction false} NextDeposits(s: State, step: Step)
    ensures DepositsMove(s, Next(s, step), If(Commits(s, step), -Effect(s, step, UnverifiedCustody)))
  {
    if step.DoDeposit? {
      DepositStep(s, step);
      assert -Effect(s, step, UnverifiedCustody) == BaseAmount(step.raw);
    } else {
      OthersKeepDeposits(s, step);
    }
  }

  /**
   A transaction hash is recorded at most once; the hot wallet, master crypto and the
   clearing account all move by exactly the recorded deposits, each posted once.
   */
  lemma {:induction false} DepositExactlyOnce(start: State, steps: seq<Step>)
    requires Start(start)
    ensures var s := Run(start, steps);
            && DistinctHashes(s.history) && RowsPosted(s)
            && s.masterCrypto - start.masterCrypto == s.hotWallet - start.hotWallet == Deposited(s.history)
            && Deposited(s.history) == -Balance(s.ledger, UnverifiedCustody)
  {
    RunKeepsInv(start, steps);
    if steps != [] {
      var mid := Run(start, steps[..|steps| - 1]);
      DepositExactlyOnce(start, steps[..|steps| - 1]);
      RunKeepsInv(start, steps[..|steps| - 1]);
      NextDeposits(mid, steps[|steps| - 1]);
      LedgerEffect(mid, steps[|steps| - 1], UnverifiedCustody);
    }
  }
}
