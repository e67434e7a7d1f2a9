/** What each store call does to sound books, in terms of what a caller can read afterwards. */
module LedgerEffects {
  import opened Wrappers
  import opened CreditLots
  import opened LotDrawing
  import opened LedgerKeys
  import opened CreditLedger
  import opened LedgerInvariants
  import opened LedgerHistory
  import opened LedgerGuarantees

  /** The wallets of other accounts and the reservations of other jobs are as they were. */
  predicate OthersKept(b: Books, b': Books, account: string, job: string) {
    b'.wallets - {account} == b.wallets - {account} && b'.reservations - {job} == b.reservations - {job}
  }

  /** The wallet of `account` moved by these amounts. */
  predicate WalletMoved(b: Books, b': Books, account: string, available: int, reserved: int) {
    && Available(b'.wallets, account) == Available(b.wallets, account) + available
    && Reserved(b'.wallets, account) == Reserved(b.wallets, account) + reserved
  }

  // ---------- Grants ----------

  /** A grant under an unused key raises what is available, adds a lot that is unexpired until its
      time comes, and writes one row. */
  lemma {:induction false} GrantEffects(b: Books, account: string, amount: nat, source: string, expires: Option<Time>,
                                        key: string, nulls: NullOrder, after: Outcome, at: Time)
    requires amount > 0 && forall e :: e in b.ledger ==> e.key != key
    requires after == Perform(b, GrantCredits(account, amount, source, expires, key), nulls)
    ensures WalletMoved(b, after.books, account, amount, 0)
    ensures after.books.wallets - {account} == b.wallets - {account} && after.books.reservations == b.reservations
    ensures Alive(after.books.lots, account, at)
         == Alive(b.lots, account, at) + if expires.None? || at < expires.value then amount else 0
    ensures after.books.lots == b.lots + [Lot(account, source, amount, expires)]
    ensures after.books.ledger == b.ledger + [Entry(account, Grant(source, expires), amount, key)]
    ensures after.reply == Row(Entry(account, Grant(source, expires), amount, key))
  {
    SumAppend(b.lots, Lot(account, source, amount, expires), LiveFor(account, at));
  }

  /** A grant under a key in use answers with the row that has it. */
  lemma {:induction false} GrantRepeated(b: Books, account: string, amount: nat, source: string, expires: Option<Time>,
                                         key: string, nulls: NullOrder, e: Entry)
    requires amount > 0 && Keyed(b.ledger) && e in b.ledger && e.key == key
    ensures Perform(b, GrantCredits(account, amount, source, expires, key), nulls) == Outcome(b, Row(e))
  {
  }

  // ---------- Reservations ----------

  /** A job can be reserved that was never reserved, or that its own account has released. */
  predicate Open(b: Books, account: string, job: string) {
    job !in b.reservations || (b.reservations[job].account == account && b.reservations[job].status == Released)
  }

  function NextVersion(b: Books, job: string): nat {
    if job in b.reservations then b.reservations[job].version + 1 else 1
  }

  /** An open job and enough credit: the amount moves from available to reserved and is held for the
      job, under the next version, and one row says so. */
  lemma {:induction false} ReserveEffects(b: Books, account: string, job: string, amount: nat, nulls: NullOrder,
                                          after: Outcome, n: nat, r: Reservation)
    requires Sound(b) && GrantsForeign(b.ledger)
    requires amount > 0 && Open(b, account, job) && amount <= Available(b.wallets, account)
    requires after == Perform(b, ReserveCredits(account, job, amount), nulls)
    requires n == NextVersion(b, job) && r == Reservation(account, amount, Active, n, None)
    ensures WalletMoved(b, after.books, account, 0 - amount, amount)
    ensures ActiveHolds(after.books.reservations, account) == ActiveHolds(b.reservations, account)[job := amount]
    ensures Lookup(after.books.reservations, job) == Some(r) && after.reply == Holding(r, true)
    ensures after.books.ledger
         == b.ledger + [Entry(account, Reserve(job, n), amount, "reserve:" + job + ":" + Decimal(n))]
    ensures OthersKept(b, after.books, account, job) && after.books.lots == b.lots
  {
    assert Documented(b, job);
    NextKeyIsFresh(b, job, Reserve(job, n));
    HoldsOfOthers(b.reservations, job, r, account);
  }

  /** Otherwise nothing changes, and the reply says why. */
  lemma {:induction false} ReserveRefused(b: Books, account: string, job: string, amount: int, nulls: NullOrder)
    requires Sound(b)
    requires amount <= 0 || !Open(b, account, job) || Available(b.wallets, account) < amount
    ensures Perform(b, ReserveCredits(account, job, amount), nulls)
         == Outcome(b, if amount <= 0 then Failed(NotPositive)
                       else if Open(b, account, job) then
                         Failed(Insufficient(amount, Available(b.wallets, account)))
                       else if b.reservations[job].account != account then Failed(OtherAccount)
                       else Holding(b.reservations[job], false))
  {
    assert Documented(b, job);
  }

  // ---------- Releases ----------

  /** Releasing what is held gives it back: available credit rises, reserved credit falls, the job
      leaves the active holds, and one row says so. */
  lemma {:induction false} ReleaseEffects(b: Books, account: string, job: string, held: nat, n: nat, nulls: NullOrder,
                                          after: Outcome)
    requires Sound(b) && GrantsForeign(b.ledger)
    requires Lookup(b.reservations, job) == Some(Reservation(account, held, Active, n, None))
    requires after == Perform(b, ReleaseReservation(account, job), nulls)
    ensures WalletMoved(b, after.books, account, held, 0 - held)
    ensures ActiveHolds(after.books.reservations, account) == ActiveHolds(b.reservations, account) - {job}
    ensures var r := Reservation(account, held, Released, n, None);
            Lookup(after.books.reservations, job) == Some(r) && after.reply == Current(Some(r))
    ensures after.books.ledger
         == b.ledger + [Entry(account, Release(job, n), held, "release:" + job + ":" + Decimal(n))]
    ensures OthersKept(b, after.books, account, job) && after.books.lots == b.lots
  {
    NextKeyIsFresh(b, job, Release(job, n));
    HoldWithinTotal(b, account, job);
    HoldEnds(b.reservations, job, Reservation(account, held, Released, n, None), account);
  }

  /** Otherwise nothing changes; another account's reservation is not even shown. */
  lemma {:induction false} ReleaseOfNothing(b: Books, account: string, job: string, nulls: NullOrder)
    requires job in b.reservations ==> b.reservations[job].account != account || b.reservations[job].status != Active
    ensures Perform(b, ReleaseReservation(account, job), nulls)
         == Outcome(b, if job in b.reservations && b.reservations[job].account != account then Failed(OtherAccount)
                       else Current(Lookup(b.reservations, job)))
  {
  }

  /** A release undoes the reservation before it: wallets, lots and holds are as if the job had not
      been reserved. */
  lemma {:induction false} ReleaseUndoesReserve(b: Books, account: string, job: string, amount: nat, nulls: NullOrder,
                                                reserved: Books, released: Books)
    requires Sound(b) && GrantsForeign(b.ledger)
    requires amount > 0 && Open(b, account, job) && amount <= Available(b.wallets, account)
    requires reserved == Perform(b, ReserveCredits(account, job, amount), nulls).books
    requires released == Perform(reserved, ReleaseReservation(account, job), nulls).books
    ensures released.wallets == b.wallets && released.lots == b.lots
    ensures ActiveHolds(released.reservations, account) == ActiveHolds(b.reservations, account)
  {
    TransactKeepsSound(b, ReserveCredits(account, job, amount), nulls);
    CallKeepsForeign(b, ReserveCredits(account, job, amount), nulls);
    var n := NextVersion(b, job);
    ReserveEffects(b, account, job, amount, nulls, Perform(b, ReserveCredits(account, job, amount), nulls), n,
                   Reservation(account, amount, Active, n, None));
    ReleaseEffects(reserved, account, job, amount, n, nulls,
                   Perform(reserved, ReleaseReservation(account, job), nulls));
    SameWallets(b, released, account);
  }

  lemma {:induction false} SameWallets(b: Books, b': Books, account: string)
    requires b'.wallets - {account} == b.wallets - {account} && account in b.wallets && account in b'.wallets
    requires WalletMoved(b, b', account, 0, 0)
    ensures b'.wallets == b.wallets
  {
    forall other | other in b.wallets ensures other in b'.wallets && b'.wallets[other] == b.wallets[other] {
      if other != account {
        assert other in b'.wallets - {account} && (b'.wallets - {account})[other] == (b.wallets - {account})[other];
      }
    }
    forall other | other in b'.wallets ensures other in b.wallets {
      if other != account { assert other in b.wallets - {account}; }
    }
  }

  /** After a release the job can be reserved again, under the next version, with what it gave back. */
  lemma {:induction false} ReserveAfterRelease(b: Books, account: string, job: string, held: nat, n: nat, amount: nat,
                                               nulls: NullOrder, released: Books)
    requires Sound(b) && GrantsForeign(b.ledger)
    requires Lookup(b.reservations, job) == Some(Reservation(account, held, Active, n, None))
    requires released == Perform(b, ReleaseReservation(account, job), nulls).books
    requires 0 < amount <= Available(b.wallets, account) + held
    ensures Perform(released, ReserveCredits(account, job, amount), nulls).reply
         == Holding(Reservation(account, amount, Active, n + 1, None), true)
  {
    TransactKeepsSound(b, ReleaseReservation(account, job), nulls);
    CallKeepsForeign(b, ReleaseReservation(account, job), nulls);
    ReleaseEffects(b, account, job, held, n, nulls, Perform(b, ReleaseReservation(account, job), nulls));
    ReserveEffects(released, account, job, amount, nulls,
                   Perform(released, ReserveCredits(account, job, amount), nulls), n + 1,
                   Reservation(account, amount, Active, n + 1, None));
  }

  // ---------- Commits ----------

  /** A covered commit of a held job: the debit is paid out of the reservation first and out of the
      available credit for the rest, the lots give exactly the debit, the job leaves the holds for
      good, and a debit row and a refund row of what was left say so. */
  lemma {:induction false} CommitEffects(b: Books, account: string, job: string, held: nat, n: nat, amount: nat,
                                         now: Time, nulls: NullOrder, after: Outcome)
    requires Sound(b) && GrantsForeign(b.ledger)
    requires Lookup(b.reservations, job) == Some(Reservation(account, held, Active, n, None))
    requires 0 < amount <= held + Available(b.wallets, account) && amount <= Alive(b.lots, account, now)
    requires after == Perform(b, CommitDebit(account, job, amount, now), nulls)
    ensures WalletMoved(b, after.books, account, held - amount, 0 - held)
    ensures Alive(after.books.lots, account, now) == Alive(b.lots, account, now) - amount
    ensures Total(after.books.lots, account) == Total(b.lots, account) - amount
    ensures ActiveHolds(after.books.reservations, account) == ActiveHolds(b.reservations, account) - {job}
    ensures Lookup(after.books.reservations, job) == Some(Reservation(account, held, Committed, n, Some(amount)))
    ensures var debit := Entry(account, Debit(job), 0 - amount, "debit:" + job);
            && after.reply == Row(debit)
            && after.books.ledger
               == b.ledger + [debit]
                  + if held > amount then [Entry(account, Refund(job), held - amount, "refund:" + job)] else []
    ensures OthersKept(b, after.books, account, job)
  {
    CommitShortIff(b, account, job, amount, now, nulls);
    HoldWithinTotal(b, account, job);
    SettledMoves(b, account, job, held, n, amount, now, nulls, after.books);
    DebitRowsInOrder(b.ledger, account, job, held, amount);
  }

  lemma {:induction false} SettledMoves(b: Books, account: string, job: string, held: nat, n: nat, amount: nat,
                                        now: Time, nulls: NullOrder, after: Books)
    requires Lookup(b.reservations, job) == Some(Reservation(account, held, Active, n, None))
    requires account in b.wallets && amount <= Alive(b.lots, account, now)
    requires after == CreditLedger.Settled(b, account, job, amount, now, nulls)
    ensures WalletMoved(b, after, account, held - amount, 0 - held) && OthersKept(b, after, account, job)
    ensures Alive(after.lots, account, now) == Alive(b.lots, account, now) - amount
    ensures Total(after.lots, account) == Total(b.lots, account) - amount
    ensures ActiveHolds(after.reservations, account) == ActiveHolds(b.reservations, account) - {job}
  {
    HoldEnds(b.reservations, job, Reservation(account, held, Committed, n, Some(amount)), account);
    DrainTakes(b.lots, account, now, amount, nulls);
  }

  /** A job that is reserved and then charged costs what it is charged, whatever was reserved. */
  lemma {:induction false} CommitCostsCharge(b: Books, account: string, job: string, amount: nat, charge: nat,
                                             now: Time, nulls: NullOrder, reserved: Books, charged: Books)
    requires Sound(b) && GrantsForeign(b.ledger)
    requires amount > 0 && Open(b, account, job) && amount <= Available(b.wallets, account)
    requires 0 < charge <= Available(b.wallets, account) && charge <= Alive(b.lots, account, now)
    requires reserved == Perform(b, ReserveCredits(account, job, amount), nulls).books
    requires charged == Perform(reserved, CommitDebit(account, job, charge, now), nulls).books
    ensures WalletMoved(b, charged, account, 0 - charge, 0)
    ensures Alive(charged.lots, account, now) == Alive(b.lots, account, now) - charge
  {
    TransactKeepsSound(b, ReserveCredits(account, job, amount), nulls);
    CallKeepsForeign(b, ReserveCredits(account, job, amount), nulls);
    var n := NextVersion(b, job);
    ReserveEffects(b, account, job, amount, nulls, Perform(b, ReserveCredits(account, job, amount), nulls), n,
                   Reservation(account, amount, Active, n, None));
    CommitEffects(reserved, account, job, amount, n, charge, now, nulls,
                  Perform(reserved, CommitDebit(account, job, charge, now), nulls));
  }

  /** A commit of a job that is neither held by the account nor committed changes nothing. */
  lemma {:induction false} CommitUnclaimed(b: Books, account: string, job: string, amount: nat, now: Time,
                                           nulls: NullOrder)
    requires Sound(b) && GrantsForeign(b.ledger) && amount > 0
    requires job in b.reservations ==>
               var r := b.reservations[job]; r.status == Released || (r.status == Active && r.account != account)
    ensures Perform(b, CommitDebit(account, job, amount, now), nulls)
         == Outcome(b, Failed(if job in b.reservations && b.reservations[job].account != account then OtherAccount
                              else NotActive))
  {
    UncommittedHasNoDebit(b, job);
  }

  /** A held job whose extra cost is not available changes nothing. */
  lemma {:induction false} CommitUncovered(b: Books, account: string, job: string, held: nat, n: nat, extra: nat,
                                           amount: nat, now: Time, nulls: NullOrder)
    requires Sound(b) && GrantsForeign(b.ledger)
    requires Lookup(b.reservations, job) == Some(Reservation(account, held, Active, n, None))
    requires amount == held + extra && extra > Available(b.wallets, account)
    ensures Perform(b, CommitDebit(account, job, amount, now), nulls)
         == Outcome(b, Failed(Insufficient(extra, Available(b.wallets, account))))
  {
    ActiveIsUncommitted(b, account, job);
    NothingIsNegative(b, account);
    assert extra > 0 && Max(amount - held, 0) == extra;
    assert ChargeError(b.wallets, b.lots, account, extra, amount, now)
        == Some(Insufficient(extra, Available(b.wallets, account)));
    CommitBarred(b, account, job, amount, now, nulls);
  }

  /** A commit of a job that has its debit row answers with that row, whoever asks for what amount. */
  lemma {:induction false} CommitRepeated(b: Books, account: string, job: string, amount: nat, now: Time,
                                          nulls: NullOrder, e: Entry)
    requires amount > 0 && Keyed(b.ledger) && e in b.ledger && e.key == "debit:" + job
    ensures Perform(b, CommitDebit(account, job, amount, now), nulls) == Outcome(b, Row(e))
  {
  }

  lemma {:induction false} UncommittedHasNoDebit(b: Books, job: string)
    requires Sound(b) && GrantsForeign(b.ledger)
    requires job in b.reservations ==> b.reservations[job].status != Committed
    ensures !HasKey(b.ledger, JobKey(Debit(job)))
  {
    assert Documented(b, job);
    if Debit(job) in Life(job, Lookup(b.reservations, job)) {
      DebitMeansCommitted(job, Lookup(b.reservations, job));
    }
    UnwrittenIsFresh(b, Debit(job), job);
  }

  lemma {:induction false} NoDebitInCycles(job: string, n: nat)
    ensures Debit(job) !in Cycles(job, n)
  {
    if n > 0 { NoDebitInCycles(job, n - 1); }
  }

  lemma {:induction false} DebitMeansCommitted(job: string, reservation: Option<Reservation>)
    requires Debit(job) in Life(job, reservation)
    ensures reservation.Some? && reservation.value.status == Committed
  {
    var r := reservation.value;
    NoDebitInCycles(job, r.version);
    NoDebitInCycles(job, if r.version > 0 then r.version - 1 else 0);
  }
}
