/** Double-entry postings: keyed, balanced, and posted once. */
module Ledger {
  import opened Common

  datatype Account =
    | Liability(user: nat)        // user:{id}:liability
    | Unallocated(user: nat)      // user:{id}:unallocated
    | TradeEscrow(trade: nat)     // escrow:trade-{id}:locked
    | EquityTreasury
    | RestrictedReserves
    | UnverifiedCustody
    | FeeRevenue

  datatype Line = Line(account: Account, debit: int, credit: int)

  function Debit(account: Account, amount: int): Line { Line(account, amount, 0) }
  function Credit(account: Account, amount: int): Line { Line(account, 0, amount) }

  /** The idempotency keys of the modelled postings. */
  datatype PostKey =
    | LockKey(trade: nat) | CancelKey(trade: nat) | SettleKey(trade: nat)
    | RejectKey(withdrawal: nat) | ReviewKey(withdrawal: nat)
    | CreditKey(history: nat) | DepositKey(txHash: string) | ConversionKey(log: nat)

  datatype Posting = Posting(key: PostKey, lines: seq<Line>)

  predicate LineOk(l: Line) {
    l.debit >= 0 && l.credit >= 0 && (l.debit == 0 <==> l.credit > 0)
  }

  /** Debits minus credits. */
  function NetDebit(lines: seq<Line>): int {
    if lines == [] then 0
    else NetDebit(lines[..|lines| - 1]) + lines[|lines| - 1].debit - lines[|lines| - 1].credit
  }

  predicate Accepts(lines: seq<Line>) {
    |lines| >= 2 && (forall i :: 0 <= i < |lines| ==> LineOk(lines[i])) && NetDebit(lines) == 0
  }

  predicate HasKey(ledger: seq<Posting>, key: PostKey) {
    exists i :: 0 <= i < |ledger| && ledger[i].key == key
  }

  /** `ledger.post`: refuses bad lines, replays an identical posting, refuses a different one under the same key. */
  function Post(ledger: seq<Posting>, key: PostKey, lines: seq<Line>): Option<seq<Posting>> {
    if !Accepts(lines) then None
    else if !HasKey(ledger, key) then Some(ledger + [Posting(key, lines)])
    else if Posting(key, lines) in ledger then Some(ledger)
    else None
  }

  /** Credits minus debits of one account: the balance of a liability account. */
  function LinesBalance(lines: seq<Line>, account: Account): int {
    if lines == [] then 0
    else
      var l := lines[|lines| - 1];
      LinesBalance(lines[..|lines| - 1], account) + if l.account == account then l.credit - l.debit else 0
  }

  function Balance(ledger: seq<Posting>, account: Account): int {
    if ledger == [] then 0
    else Balance(ledger[..|ledger| - 1], account) + LinesBalance(ledger[|ledger| - 1].lines, account)
  }

  /** Debits minus credits over the whole ledger. */
  function Total(ledger: seq<Posting>): int {
    if ledger == [] then 0 else Total(ledger[..|ledger| - 1]) + NetDebit(ledger[|ledger| - 1].lines)
  }

  lemma BalanceAppend(ledger: seq<Posting>, p: Posting, account: Account)
    ensures Balance(ledger + [p], account) == Balance(ledger, account) + LinesBalance(p.lines, account)
    ensures Total(ledger + [p]) == Total(ledger) + NetDebit(p.lines)
  {
    assert (ledger + [p])[..|ledger|] == ledger;
  }

  lemma LinesAppend(lines: seq<Line>, l: Line, account: Account)
    ensures LinesBalance(lines + [l], account)
         == LinesBalance(lines, account) + if l.account == account then l.credit - l.debit else 0
    ensures NetDebit(lines + [l]) == NetDebit(lines) + l.debit - l.credit
  {
    assert (lines + [l])[..|lines|] == lines;
  }

  /** A two-line transfer: what it does to every account. */
  lemma TransferLines(from: Account, to: Account, amount: int, account: Account)
    ensures var lines := [Debit(from, amount), Credit(to, amount)];
            && NetDebit(lines) == 0
            && LinesBalance(lines, account)
               == (if to == account then amount else 0) - (if from == account then amount else 0)
  {
    LinesAppend([], Debit(from, amount), account);
    LinesAppend([Debit(from, amount)], Credit(to, amount), account);
    assert [] + [Debit(from, amount)] == [Debit(from, amount)];
    assert [Debit(from, amount)] + [Credit(to, amount)] == [Debit(from, amount), Credit(to, amount)];
  }

  /** Balanced one-sided lines are posted once per key: again the same is a replay, anything else is refused. */
  lemma PostExactly(ledger: seq<Posting>, key: PostKey, lines: seq<Line>)
    ensures var r := Post(ledger, key, lines);
            && (r.Some? <==>
                  && |lines| >= 2 && NetDebit(lines) == 0
                  && (forall i :: 0 <= i < |lines| ==>
                        (lines[i].debit > 0 && lines[i].credit == 0) || (lines[i].debit == 0 && lines[i].credit > 0))
                  && ((forall i :: 0 <= i < |ledger| ==> ledger[i].key != key) || Posting(key, lines) in ledger))
            && (r.Some? ==>
                  r.value == if forall i :: 0 <= i < |ledger| ==> ledger[i].key != key
                             then ledger + [Posting(key, lines)] else ledger)
  {
    assert forall l :: LineOk(l) <==> (l.debit > 0 && l.credit == 0) || (l.debit == 0 && l.credit > 0);
  }
}
