/** The money-moving transactions as they run against the tables; a `false` result means rolled back. */
module TreasuryDesk {
  import opened Common
  import opened Ledger
  import opened Treasury
  import opened TreasuryProofs
  import opened TreasuryRules
  import Quota

  class Desk {
    var users: seq<User>
    var trades: seq<Trade>
    var legacy: seq<Legacy>
    var claims: seq<Claim>
    var history: seq<History>
    var conversions: seq<Conversion>
    var pool: int
    var masterCrypto: int
    var hotWallet: int
    var ledger: seq<Posting>

    ghost function View(): State
      reads this
    {
      State(users, trades, legacy, claims, history, conversions, pool, masterCrypto, hotWallet, ledger)
    }

    /** The ledger sums to zero, keys and rows match, and each escrow column is its unresolved principal. */
    ghost predicate Valid()
      reads this
    {
      Inv(View()) && EscrowOk(View())
    }

    /** Every customer's columns moved exactly as its ledger accounts since the given state. */
    ghost predicate FollowsLedger(before: State)
      reads this
    {
      |users| == |before.users| && forall u :: 0 <= u < |before.users| ==> MovesTogether(before, View(), u)
    }

    constructor (users: seq<User>, pool: int)
      requires pool >= 0 && forall u :: 0 <= u < |users| ==> users[u].azm >= 0 && users[u].escrow == 0
      ensures Valid() && Start(View()) && this.users == users && this.pool == pool
    {
      this.users, this.pool := users, pool;
      trades, legacy, claims, history, conversions := [], [], [], [], [];
      masterCrypto, hotWallet, ledger := 0, 0, [];
    }

    /** The validation half of `ledger.post`: at least two lines, one side each, debits equal to credits. */
    method CheckLines(lines: seq<Line>) returns (ok: bool)
      ensures ok == Accepts(lines)
    {
      if |lines| < 2 { return false; }
      var debits, credits := 0, 0;
      for i := 0 to |lines|
        invariant forall j :: 0 <= j < i ==> LineOk(lines[j])
        invariant debits - credits == NetDebit(lines[..i])
      {
        if lines[i].debit < 0 || lines[i].credit < 0 { return false; }
        if (lines[i].debit == 0) == (lines[i].credit == 0) { return false; }
        assert lines[..i + 1][..i] == lines[..i];
        debits, credits := debits + lines[i].debit, credits + lines[i].credit;
      }
      assert lines[..|lines|] == lines;
      ok := debits == credits;
    }

    /** `ledger.post` on the caller's transaction. */
    method PostLines(key: PostKey, lines: seq<Line>) returns (posted: bool)
      modifies this`ledger
      ensures posted == old(Post(ledger, key, lines)).Some?
      ensures ledger == if posted then old(Post(ledger, key, lines)).value else old(ledger)
      ensures posted && (forall i :: 0 <= i < |old(ledger)| ==> old(ledger)[i].key != key) ==>
                ledger == old(ledger) + [Posting(key, lines)]
      ensures posted ==> Posting(key, lines) in ledger
    {
      PostExactly(ledger, key, lines);
      var ok := CheckLines(lines);
      if !ok { return false; }
      for i := 0 to |ledger|
        invariant forall j :: 0 <= j < i ==> ledger[j].key != key
      {
        if ledger[i].key == key {
          return Posting(key, lines) in ledger;
        }
      }
      ledger := ledger + [Posting(key, lines)];
      posted := true;
    }

    method CancelRows(id: nat) returns (done: bool)
      modifies this`users, this`trades, this`ledger
      ensures done == old(ForceCancel(View(), id)).Some?
      ensures View() == if done then old(ForceCancel(View(), id)).value else old(View())
    {
      if id >= |trades| || trades[id].status != Disputed || Holder(trades[id]) >= |users| { return false; }
      var t := trades[id];
      var u := users[Holder(t)];
      if u.escrow < t.amount { return false; }
      done := PostLines(CancelKey(id), [Debit(TradeEscrow(id), t.amount), Credit(Source(t), t.amount)]);
      if done {
        trades := trades[id := t.(status := Cancelled)];
        if t.sell {
          users := users[t.vendor := u.(escrow := u.escrow - t.amount, unallocated := u.unallocated + t.amount)];
        } else {
          users := users[t.customer := u.(escrow := u.escrow - t.amount, available := u.available + t.amount)];
        }
      }
    }

    method RefundRows(id: nat, review: bool) returns (done: bool)
      modifies this`users, this`legacy, this`ledger
      ensures done == old(RefundLegacy(View(), id, review)).Some?
      ensures View() == if done then old(RefundLegacy(View(), id, review)).value else old(View())
    {
      if id >= |legacy| || legacy[id].status != (if review then Parked else Live) { return false; }
      var w := legacy[id];
      if w.user >= |users| { return false; }
      var source := if w.reserved then RestrictedReserves else EquityTreasury;
      done := PostLines(if review then ReviewKey(id) else RejectKey(id),
                        [Debit(source, w.amount), Credit(Liability(w.user), w.amount)]);
      if done {
        users := users[w.user := users[w.user].(available := users[w.user].available + w.amount)];
        legacy := legacy[id := w.(status := Rejected, reserved := false)];
      }
    }

    /** The unique constraint on `txHash`. */
    method HashExists(hash: TxHash) returns (found: bool)
      ensures found == Recorded(history, hash)
    {
      found := false;
      for i := 0 to |history|
        invariant !found && forall j :: 0 <= j < i ==> history[j].hash != hash
      {
        if history[i].hash == hash { return true; }
      }
    }

    method CreditRows(k: nat) returns (done: bool)
      modifies this`users, this`history, this`claims, this`ledger
      ensures done == old(CreditUser(View(), k)).Some?
      ensures View() == if done then old(CreditUser(View(), k)).value else old(View())
    {
      if k >= |claims| || claims[k].amount <= 0 || claims[k].user >= |users| { return false; }
      var c := claims[k];
      var taken := HashExists(HashOf(c));
      if taken || c.status != InProgress { return false; }
      done := PostLines(CreditKey(|history|), [Debit(EquityTreasury, c.amount), Credit(Liability(c.user), c.amount)]);
      if done {
        users := users[c.user := users[c.user].(available := users[c.user].available + c.amount)];
        history := history + [History(HashOf(c), c.user, c.amount)];
        claims := claims[k := c.(status := Committed)];
      }
    }

    method DepositRows(hash: string, user: nat, raw: RawAmount, registered: bool) returns (done: bool)
      modifies this`users, this`history, this`masterCrypto, this`hotWallet, this`ledger
      ensures done == old(Deposit(View(), hash, user, raw, registered)).Some?
      ensures View() == if done then old(Deposit(View(), hash, user, raw, registered)).value else old(View())
    {
      var seen := HashExists(OnChain(hash));
      if seen { return false; }
      if raw.Inexact? || raw.units <= 0 || !registered || user >= |users| { return false; }
      var amount := raw.units * 100;
      done := PostLines(DepositKey(hash), [Debit(UnverifiedCustody, amount), Credit(Liability(user), amount)]);
      if done {
        users := users[user := users[user].(available := users[user].available + amount)];
        masterCrypto := masterCrypto + amount;
        hotWallet := hotWallet + amount;
        history := history + [History(OnChain(hash), user, amount)];
      }
    }

    /** `getDailyQuotaRemaining`: the aggregate over one user's recent logs. */
    method DailyQuotaRemaining(user: nat, now: int) returns (remaining: int)
      ensures remaining == Quota.Remaining(LogsOf(conversions, user), now)
    {
      var sum := 0;
      for i := 0 to |conversions|
        invariant sum == Quota.SumSince(LogsOf(conversions[..i], user), now - Quota.DAY)
      {
        var c := conversions[i];
        assert conversions[..i + 1][..i] == conversions[..i];
        if c.user == user && c.at >= now - Quota.DAY {
          sum := sum + c.azm;
        }
        var logs := LogsOf(conversions[..i], user);
        assert (logs + [Quota.Log(c.at, c.azm)])[..|logs|] == logs && logs + [] == logs;
      }
      assert conversions[..|conversions|] == conversions;
      remaining := if Quota.LIMIT - sum > 0 then Quota.LIMIT - sum else 0;
    }

    method ConvertRows(user: nat, azm: int, quote: Quote, at: int) returns (done: bool)
      modifies this`users, this`pool, this`conversions, this`ledger
      ensures done == old(Convert(View(), user, azm, quote, at)).Some?
      ensures View() == if done then old(Convert(View(), user, azm, quote, at)).value else old(View())
      ensures done ==> pool >= 0
    {
      if azm < MIN_CONVERT || !QuotaAllows(conversions, user, azm, quote) { return false; }
      if user >= |users| || users[user].azm < azm { return false; }
      var rate := Rate(quote.poolSeen, quote.holder);
      var usdc := Proceeds(azm, rate);
      if pool < usdc { return false; }
      done := PostLines(ConversionKey(|conversions|), [Debit(EquityTreasury, usdc), Credit(Liability(user), usdc)]);
      if done {
        users := users[user := users[user].(azm := users[user].azm - azm, available := users[user].available + usdc)];
        pool := pool - usdc;
        conversions := conversions + [Conversion(user, azm, usdc, rate, at)];
      }
    }

    // -------------------------------------------------------------- what callers of the handlers may rely on

    /** `forceCancel`: takes effect exactly on a disputed trade, and keeps the books. */
    method CancelTrade(id: nat) returns (done: bool)
      requires Valid()
      modifies this`users, this`trades, this`ledger
      ensures done == old(ForceCancel(View(), id)).Some?
      ensures View() == if done then old(ForceCancel(View(), id)).value else old(View())
      ensures Valid() && FollowsLedger(old(View()))
      ensures done <==> id < old(|trades|) && old(trades)[id].status == Disputed
      ensures done ==> TradersExist(old(View())) && CancelledTrade(old(View()), View(), id)
    {
      CancelExactly(View(), id);
      CancelIffDisputed(View(), id);
      StepKeepsBooks(View(), DoCancel(id));
      done := CancelRows(id);
    }

    /** The mirror-only branch of both rejection handlers. */
    method RefundMirror(id: nat, review: bool) returns (done: bool)
      requires Valid()
      modifies this`users, this`legacy, this`ledger
      ensures done == old(RefundLegacy(View(), id, review)).Some?
      ensures View() == if done then old(RefundLegacy(View(), id, review)).value else old(View())
      ensures Valid() && FollowsLedger(old(View()))
      ensures done <==> old(MayRefund(View(), id, review))
      ensures done ==> Refunded(old(View()), View(), id, review)
    {
      RefundExactly(View(), id, review);
      StepKeepsBooks(View(), DoRefund(id, review));
      done := RefundRows(id, review);
    }

    /** `creditUserBalance`; a second credit under the same claim is refused. */
    method CreditBalance(k: nat) returns (done: bool)
      requires Valid()
      modifies this`users, this`history, this`claims, this`ledger
      ensures done == old(CreditUser(View(), k)).Some?
      ensures View() == if done then old(CreditUser(View(), k)).value else old(View())
      ensures Valid() && FollowsLedger(old(View()))
      ensures done ==> k < old(|claims|) && !old(Recorded(history, HashOf(claims[k])))
                       && Recorded(history, HashOf(claims[k]))
      ensures done <==> old(MayCredit(View(), k))
      ensures done ==> Credited(old(View()), View(), k)
    {
      CreditExactly(View(), k);
      StepKeepsBooks(View(), DoCredit(k));
      done := CreditRows(k);
      assert done ==> history[old(|history|)].hash == HashOf(claims[k]);
    }

    /** Steps 4 and 5 of `tatumCryptoWebhook`; a hash already recorded is refused. */
    method DepositCrypto(hash: string, user: nat, raw: RawAmount, registered: bool) returns (done: bool)
      requires Valid()
      modifies this`users, this`history, this`masterCrypto, this`hotWallet, this`ledger
      ensures done == old(Deposit(View(), hash, user, raw, registered)).Some?
      ensures View() == if done then old(Deposit(View(), hash, user, raw, registered)).value else old(View())
      ensures Valid() && FollowsLedger(old(View()))
      ensures done ==> !old(Recorded(history, OnChain(hash))) && Recorded(history, OnChain(hash))
      ensures done <==> old(MayDeposit(View(), hash, user, raw, registered))
      ensures done ==> DepositBooked(old(View()), View(), hash, user, raw.units)
    {
      DepositExactly(View(), hash, user, raw, registered);
      StepKeepsBooks(View(), DoDeposit(hash, user, raw, registered));
      done := DepositRows(hash, user, raw, registered);
      assert done ==> history[old(|history|)].hash == OnChain(hash);
    }

    lemma ConvertOutcome(s: State, user: nat, azm: int, quote: Quote, at: int) returns (s': State)
      requires Inv(s) && EscrowOk(s)
      ensures s' == OrElse(Convert(s, user, azm, quote, at), s)
      ensures Inv(s') && EscrowOk(s') && |s'.users| == |s.users|
      ensures forall u :: 0 <= u < |s.users| ==> MovesTogether(s, s', u)
    {
      s' := Next(s, DoConvert(user, azm, quote, at));
      NextKeepsUsers(s, DoConvert(user, azm, quote, at));
      StepKeepsBooks(s, DoConvert(user, azm, quote, at));
    }

    /** `convertAzmToUsdc` from its checks on the quote to the end of its transaction. */
    method ConvertAzm(user: nat, azm: int, quote: Quote, at: int) returns (done: bool)
      requires Valid()
      modifies this`users, this`pool, this`conversions, this`ledger
      ensures done == old(Convert(View(), user, azm, quote, at)).Some?
      ensures View() == if done then old(Convert(View(), user, azm, quote, at)).value else old(View())
      ensures Valid() && FollowsLedger(old(View()))
      ensures done ==> pool >= 0
      ensures exists rate, usdc :: && IsRate(quote.poolSeen, quote.holder, rate)
                                   && Nearest(azm * rate, 1_000_000, usdc)
                                   && (done <==> old(MayConvert(View(), user, azm, quote, usdc)))
                                   && (done ==> Converted(old(View()), View(), user, azm, rate, usdc, at))
    {
      ghost var rate, usdc := ConvertExactly(View(), user, azm, quote, at);
      ghost var after := ConvertOutcome(View(), user, azm, quote, at);
      done := ConvertRows(user, azm, quote, at);
      assert View() == after;
    }
  }
}
