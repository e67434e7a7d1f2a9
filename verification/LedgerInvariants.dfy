/** What every run of store calls keeps true of the books. */
module LedgerInvariants {
  import opened Wrappers
  import opened CreditLots
  import opened LotDrawing
  import opened LedgerKeys
  import opened CreditLedger

  // ---------- Replaying the ledger ----------

  /** What the ledger rows of one account add up to, with the amounts still held for jobs. */
  datatype Balance = Balance(available: int, reserved: int, holds: map<string, int>)

  function Post(b: Balance, e: Entry): Balance {
    match e.kind
    case Grant(_, _) => b.(available := b.available + e.amount)
    case Reserve(job, _) => Balance(b.available - e.amount, b.reserved + e.amount, b.holds[job := e.amount])
    case Release(job, _) => Balance(b.available + e.amount, b.reserved - e.amount, b.holds - {job})
    case Debit(job) =>
      var held, debited := if job in b.holds then b.holds[job] else 0, 0 - e.amount;
      Balance(b.available - Max(debited - held, 0), b.reserved - Min(debited, held), b.holds - {job})
    case Refund(_) => Balance(b.available + e.amount, b.reserved - e.amount, b.holds)
  }

  function Replay(ledger: seq<Entry>, account: string): Balance {
    if ledger == [] then Balance(0, 0, map[])
    else
      var last := ledger[|ledger| - 1];
      var before := Replay(ledger[..|ledger| - 1], account);
      if last.account == account then Post(before, last) else before
  }

  lemma {:induction false} ReplayAppend(ledger: seq<Entry>, e: Entry, account: string)
    ensures Replay(ledger + [e], account)
            == if e.account == account then Post(Replay(ledger, account), e) else Replay(ledger, account)
  {
    assert (ledger + [e])[..|ledger|] == ledger;
  }

  /** Grants plus (negative) debits; reserve, release and refund rows are not income. */
  function Income(ledger: seq<Entry>, account: string): int {
    if ledger == [] then 0
    else
      var last := ledger[|ledger| - 1];
      Income(ledger[..|ledger| - 1], account)
      + if last.account == account && (last.kind.Grant? || last.kind.Debit?) then last.amount else 0
  }

  lemma {:induction false} IncomeAppend(ledger: seq<Entry>, e: Entry, account: string)
    ensures Income(ledger + [e], account)
            == Income(ledger, account)
               + if e.account == account && (e.kind.Grant? || e.kind.Debit?) then e.amount else 0
  {
    assert (ledger + [e])[..|ledger|] == ledger;
  }

  // ---------- Sums over holds ----------

  ghost function SumHolds(holds: map<string, int>): int {
    if holds == map[] then 0
    else
      var job :| job in holds;
      holds[job] + SumHolds(holds - {job})
  }

  lemma {:induction false} SumHoldsSplit(holds: map<string, int>, job: string)
    requires job in holds
    ensures SumHolds(holds) == holds[job] + SumHolds(holds - {job})
    decreases |holds|
  {
    var picked :| picked in holds && SumHolds(holds) == holds[picked] + SumHolds(holds - {picked});
    if picked != job {
      SumHoldsSplit(holds - {picked}, job);
      SumHoldsSplit(holds - {job}, picked);
      assert holds - {picked} - {job} == holds - {job} - {picked};
    }
  }

  lemma {:induction false} SumHoldsAdd(holds: map<string, int>, job: string, amount: int)
    requires job !in holds
    ensures SumHolds(holds[job := amount]) == SumHolds(holds) + amount
  {
    SumHoldsSplit(holds[job := amount], job);
    assert holds[job := amount] - {job} == holds;
  }

  lemma {:induction false} SumHoldsNonNegative(holds: map<string, int>)
    requires forall job :: job in holds ==> holds[job] >= 0
    ensures SumHolds(holds) >= 0
    decreases |holds|
  {
    if holds != map[] {
      var job :| job in holds;
      SumHoldsSplit(holds, job);
      SumHoldsNonNegative(holds - {job});
    }
  }

  // ---------- Conservation ----------

  /** The amounts held by the active reservations of an account. */
  function ActiveHolds(reservations: map<string, Reservation>, account: string): map<string, int> {
    map job | job in reservations && Held(reservations, job, account) :: reservations[job].reserved
  }

  /** The four tables agree about one account. */
  ghost predicate Balanced(b: Books, account: string) {
    && Replay(b.ledger, account) == Balance(Available(b.wallets, account), Reserved(b.wallets, account),
                                            ActiveHolds(b.reservations, account))
    && Reserved(b.wallets, account) == SumHolds(ActiveHolds(b.reservations, account))
    && Available(b.wallets, account) >= 0
    && Available(b.wallets, account) + Reserved(b.wallets, account) == Total(b.lots, account)
    && Total(b.lots, account) == Income(b.ledger, account)
    && (account !in b.wallets ==> ActiveHolds(b.reservations, account) == map[])
  }

  lemma {:induction false} HoldsOfOthers(reservations: map<string, Reservation>, job: string, r: Reservation,
                                         account: string)
    requires job in reservations ==> reservations[job].account == r.account
    ensures account != r.account ==>
              ActiveHolds(reservations[job := r], account) == ActiveHolds(reservations, account)
    ensures account == r.account ==>
              ActiveHolds(reservations[job := r], account) ==
              if r.status == Active then ActiveHolds(reservations, account)[job := r.reserved]
              else ActiveHolds(reservations, account) - {job}
  {
  }

  lemma {:induction false} GrantKeepsBalance(b: Books, account: string, amount: int, source: string,
                                             expires: Option<Time>, key: string, who: string)
    requires Balanced(b, who)
    ensures Balanced(GrantTx(b, account, amount, source, expires, key).books, who)
  {
    if amount > 0 && !HasKey(b.ledger, key) {
      var entry, lot := Entry(account, Grant(source, expires), amount, key), Lot(account, source, amount, expires);
      var b' := GrantTx(b, account, amount, source, expires, key).books;
      ReplayAppend(b.ledger, entry, who);
      IncomeAppend(b.ledger, entry, who);
      SumAppend(b.lots, lot, OwnedBy(who));
      assert b'.ledger == b.ledger + [entry] && b'.lots == b.lots + [lot];
      assert Total(b'.lots, who) == Total(b.lots, who) + if who == account then amount else 0;
    }
  }

  /** What a reservation that goes through writes. */
  lemma {:induction false} ReservationWritten(b: Books, account: string, job: string, amount: nat)
    returns (r: Reservation, entry: Entry)
    requires ReserveTx(b, account, job, amount).books != b
    ensures ReserveTx(b, account, job, amount).books
            == Books(Credit(b.wallets, account, 0 - amount, amount), b.lots, b.ledger + [entry],
                     b.reservations[job := r])
    ensures account in b.wallets && amount <= Available(b.wallets, account)
    ensures job in b.reservations ==> b.reservations[job].account == account && b.reservations[job].status != Active
    ensures r.account == account && r.reserved == amount && r.status == Active
    ensures entry.account == account && entry.amount == amount && entry.kind == Reserve(job, r.version)
  {
    r := ReserveTx(b, account, job, amount).books.reservations[job];
    entry := JobEntry(account, Reserve(job, r.version), amount);
  }

  lemma {:induction false} ReserveKeepsBalance(b: Books, account: string, job: string, amount: nat, who: string)
    requires Balanced(b, who)
    ensures Balanced(ReserveTx(b, account, job, amount).books, who)
  {
    if ReserveTx(b, account, job, amount).books != b {
      var r, entry := ReservationWritten(b, account, job, amount);
      ReservationIsBalanced(b, job, r, entry, who);
    }
  }

  lemma {:induction false} ReservationIsBalanced(b: Books, job: string, r: Reservation, entry: Entry, who: string)
    requires Balanced(b, who)
    requires r.account in b.wallets && r.reserved <= Available(b.wallets, r.account)
    requires job in b.reservations ==> b.reservations[job].account == r.account && b.reservations[job].status != Active
    requires r.status == Active && entry.account == r.account && entry.amount == r.reserved
    requires entry.kind == Reserve(job, r.version)
    ensures Balanced(Books(Credit(b.wallets, r.account, 0 - r.reserved, r.reserved), b.lots, b.ledger + [entry],
                           b.reservations[job := r]), who)
  {
    ReplayAppend(b.ledger, entry, who);
    IncomeAppend(b.ledger, entry, who);
    HoldsOfOthers(b.reservations, job, r, who);
    if who == r.account {
      SumHoldsAdd(ActiveHolds(b.reservations, who), job, r.reserved);
    }
  }

  /** A hold that ends leaves the holds of its account, and the sum falls by its amount. */
  lemma {:induction false} HoldEnds(reservations: map<string, Reservation>, job: string, r: Reservation, who: string)
    requires Held(reservations, job, r.account) && r.status != Active
    ensures var before, after := ActiveHolds(reservations, who), ActiveHolds(reservations[job := r], who);
            if who == r.account then
              job in before && before[job] == reservations[job].reserved && after == before - {job}
              && SumHolds(after) == SumHolds(before) - reservations[job].reserved
            else after == before
  {
    HoldsOfOthers(reservations, job, r, who);
    if who == r.account {
      SumHoldsSplit(ActiveHolds(reservations, who), job);
    }
  }

  /** Ending a reservation, with a charge, keeps the balance: a release charges nothing. */
  lemma {:induction false} EndingKeepsBalance(b: Books, b': Books, job: string, r: Reservation, charge: nat,
                                              who: string)
    requires Balanced(b, who)
    requires Held(b.reservations, job, r.account) && r.status != Active
    requires var extra := charge - b.reservations[job].reserved;
             && (extra <= 0 || (r.account in b.wallets && b.wallets[r.account].available >= extra))
             && b'.wallets == Adjust(b.wallets, r.account, 0 - extra, 0 - b.reservations[job].reserved)
    requires b'.reservations == b.reservations[job := r]
    requires Replay(b'.ledger, who) == Ended(Replay(b.ledger, who), r.account, job, b.reservations[job].reserved,
                                             charge, who)
    requires Income(b'.ledger, who) == Income(b.ledger, who) - Charged(r.account, charge, who)
    requires Total(b'.lots, who) == Total(b.lots, who) - Charged(r.account, charge, who)
    ensures Balanced(b', who)
  {
    HoldEnds(b.reservations, job, r, who);
  }

  function Charged(account: string, charge: nat, who: string): nat {
    if who == account then charge else 0
  }

  function Ended(before: Balance, account: string, job: string, reserved: nat, charge: nat, who: string): Balance {
    if who != account then before
    else Balance(before.available + reserved - charge, before.reserved - reserved, before.holds - {job})
  }

  lemma {:induction false} ReleaseKeepsBalance(b: Books, account: string, job: string, who: string)
    requires Balanced(b, who)
    ensures Balanced(ReleaseTx(b, account, job).books, who)
  {
    if ReleaseTx(b, account, job).books != b {
      var r := b.reservations[job];
      var entry := JobEntry(account, Release(job, r.version), r.reserved);
      ReplayAppend(b.ledger, entry, who);
      IncomeAppend(b.ledger, entry, who);
      EndingKeepsBalance(b, ReleaseTx(b, account, job).books, job, r.(status := Released), 0, who);
    }
  }

  lemma {:induction false} DebitRowsReplayed(ledger: seq<Entry>, account: string, job: string, reserved: nat,
                                             amount: nat, who: string)
    requires job in Replay(ledger, account).holds && Replay(ledger, account).holds[job] == reserved
    ensures Replay(ledger + DebitRows(account, job, reserved, amount), who)
            == Ended(Replay(ledger, who), account, job, reserved, amount, who)
    ensures Income(ledger + DebitRows(account, job, reserved, amount), who)
            == Income(ledger, who) - Charged(account, amount, who)
  {
    var debit, refund := JobEntry(account, Debit(job), 0 - amount), JobEntry(account, Refund(job), reserved - amount);
    DebitRowsInOrder(ledger, account, job, reserved, amount);
    ReplayAppend(ledger, debit, who);
    IncomeAppend(ledger, debit, who);
    ReplayAppend(ledger + [debit], refund, who);
    IncomeAppend(ledger + [debit], refund, who);
  }

  lemma {:induction false} CommitKeepsBalance(b: Books, account: string, job: string, amount: nat, now: Time,
                                              nulls: NullOrder, who: string)
    requires Balanced(b, who) && Balanced(b, account)
    ensures Balanced(CommitTx(b, account, job, amount, now, nulls).books, who)
  {
    if CommitTx(b, account, job, amount, now, nulls).books != b {
      SettledIsBalanced(b, account, job, amount, now, nulls, who, Settled(b, account, job, amount, now, nulls));
    }
  }

  lemma {:induction false} SettledIsBalanced(b: Books, account: string, job: string, amount: nat, now: Time,
                                             nulls: NullOrder, who: string, after: Books)
    requires Balanced(b, who) && Balanced(b, account)
    requires Held(b.reservations, job, account) && CommitBar(b, account, job, amount, now) == None
    requires after == Settled(b, account, job, amount, now, nulls)
    ensures Balanced(after, who)
  {
    var r := b.reservations[job].(status := Committed, final := Some(amount));
    CommitPosted(b, account, job, r.reserved, amount, who, after.ledger);
    CommitDrained(b.lots, account, amount, now, nulls, who, after.lots);
    EndingKeepsBalance(b, after, job, r, amount, who);
  }

  lemma {:induction false} CommitPosted(b: Books, account: string, job: string, reserved: nat, amount: nat, who: string,
                                        ledger: seq<Entry>)
    requires Balanced(b, account) && Held(b.reservations, job, account) && reserved == b.reservations[job].reserved
    requires ledger == b.ledger + DebitRows(account, job, reserved, amount)
    ensures Replay(ledger, who) == Ended(Replay(b.ledger, who), account, job, reserved, amount, who)
    ensures Income(ledger, who) == Income(b.ledger, who) - Charged(account, amount, who)
  {
    var r := b.reservations[job];
    HoldEnds(b.reservations, job, r.(status := Committed), account);
    DebitRowsReplayed(b.ledger, account, job, r.reserved, amount, who);
  }

  lemma {:induction false} CommitDrained(lots: seq<Lot>, account: string, amount: nat, now: Time, nulls: NullOrder,
                                         who: string, after: seq<Lot>)
    requires amount <= Alive(lots, account, now) && after == Drain(lots, account, now, amount, nulls)
    ensures Total(after, who) == Total(lots, who) - Charged(account, amount, who)
  {
    if who == account {
      DrainTakes(lots, account, now, amount, nulls);
    } else {
      DrainKeepsOtherAccounts(lots, account, now, amount, nulls, who, now);
    }
  }
}
