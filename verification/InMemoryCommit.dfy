/** The in-memory branch of `commit_debit`. It has no transaction: on failure it only puts the
    reservation back. This module states exactly when that leaves the books damaged. */
module InMemoryCommit {
  import opened Wrappers
  import opened CreditLots
  import opened LotDrawing
  import opened LedgerKeys
  import opened CreditLedger
  import opened LedgerInvariants
  import opened LedgerHistory
  import opened LedgerGuarantees

  /** `get_wallet` on a missing wallet creates an empty one. */
  function WithWallet(wallets: map<string, Wallet>, account: string): map<string, Wallet> {
    if account in wallets then wallets else wallets[account := Wallet(0, 0)]
  }

  lemma {:induction false} EmptyWalletAppears(wallets: map<string, Wallet>, account: string, who: string)
    ensures WithWallet(wallets, account).Keys == wallets.Keys + {account}
    ensures Available(WithWallet(wallets, account), who) == Available(wallets, who)
    ensures Reserved(WithWallet(wallets, account), who) == Reserved(wallets, who)
  {
  }

  /** `_insert_ledger`: a row whose key is taken is dropped without an error. */
  function InsertRow(ledger: seq<Entry>, e: Entry): seq<Entry> {
    if HasKey(ledger, e.key) then ledger else ledger + [e]
  }

  /** `_release_commit_claim` on the failure path. */
  function Unclaimed(r: Reservation): Reservation {
    r.(status := Active, final := None)
  }

  function InsertRows(ledger: seq<Entry>, rows: seq<Entry>): seq<Entry>
    decreases |rows|
  {
    if rows == [] then ledger else InsertRows(InsertRow(ledger, rows[0]), rows[1..])
  }

  /** The debit row and, if something is left of the reservation, the refund row. */
  function InsertDebit(ledger: seq<Entry>, account: string, job: string, reserved: nat, amount: nat): seq<Entry> {
    InsertRows(ledger, DebitRows(account, job, reserved, amount))
  }

  function Commit(b: Books, account: string, job: string, amount: nat, now: Time, nulls: NullOrder): Outcome {
    if HasKey(b.ledger, JobKey(Debit(job))) then Outcome(b, Row(Find(b.ledger, JobKey(Debit(job))).value))
    else if !Held(b.reservations, job, account) then Fail(b, ClaimError(b, account, job))
    else CommitClaimed(b, account, job, amount, now, nulls)
  }

  function CommitClaimed(b: Books, account: string, job: string, amount: nat, now: Time, nulls: NullOrder): Outcome
    requires Held(b.reservations, job, account)
  {
    var extra := Max(amount - b.reservations[job].reserved, 0);
    var error := ChargeError(b.wallets, b.lots, account, extra, amount, now);
    if error.Some? then Outcome(Undone(b, account, job, extra, amount, now, nulls, error.value), Failed(error.value))
    else Outcome(Finished(b, account, job, amount, now, nulls), Row(JobEntry(account, Debit(job), 0 - amount)))
  }

  /** The books after a failed charge: only the reservation is put back. */
  function Undone(b: Books, account: string, job: string, extra: nat, amount: nat, now: Time, nulls: NullOrder,
                  error: Error): Books
    requires Held(b.reservations, job, account)
  {
    var unclaimed := b.reservations[job := Unclaimed(b.reservations[job])];
    if error.LotsShort? then
      Books(Adjust(b.wallets, account, 0 - extra, 0), Drain(b.lots, account, now, amount, nulls), b.ledger, unclaimed)
    else Books(WithWallet(b.wallets, account), b.lots, b.ledger, unclaimed)
  }

  /** The books after a charge that succeeded: as in the transaction, but for rows whose keys are taken. */
  function Finished(b: Books, account: string, job: string, amount: nat, now: Time, nulls: NullOrder): Books
    requires Held(b.reservations, job, account)
  {
    var r := b.reservations[job];
    Books(Adjust(b.wallets, account, r.reserved - amount, 0 - r.reserved),
          Drain(b.lots, account, now, amount, nulls),
          InsertDebit(b.ledger, account, job, r.reserved, amount),
          b.reservations[job := r.(status := Committed, final := Some(amount))])
  }

  /** A failed charge ends in any books that agree table by table with what is undone. */
  lemma {:induction false} UndoneOutcome(b: Books, b': Books, account: string, job: string, extra: nat, amount: nat,
                                         now: Time, nulls: NullOrder, error: Error)
    requires Held(b.reservations, job, account) && extra == Max(amount - b.reservations[job].reserved, 0)
    requires ChargeError(b.wallets, b.lots, account, extra, amount, now) == Some(error)
    requires b'.ledger == b.ledger && b'.reservations == b.reservations[job := Unclaimed(b.reservations[job])]
    requires if error.LotsShort? then
               b'.wallets == Adjust(b.wallets, account, 0 - extra, 0)
               && b'.lots == Drain(b.lots, account, now, amount, nulls)
             else b'.wallets == WithWallet(b.wallets, account) && b'.lots == b.lots
    ensures CommitClaimed(b, account, job, amount, now, nulls) == Outcome(b', Failed(error))
  {
  }

  /** Books that agree with `Finished` table by table are `Finished`. */
  lemma {:induction false} FinishedTables(b: Books, b': Books, account: string, job: string, amount: nat, now: Time,
                                          nulls: NullOrder)
    requires Held(b.reservations, job, account)
    requires var r := b.reservations[job];
             && b'.wallets == Adjust(b.wallets, account, r.reserved - amount, 0 - r.reserved)
             && b'.lots == Drain(b.lots, account, now, amount, nulls)
             && b'.ledger == InsertDebit(b.ledger, account, job, r.reserved, amount)
             && b'.reservations == b.reservations[job := r.(status := Committed, final := Some(amount))]
    ensures b' == Finished(b, account, job, amount, now, nulls)
  {
  }

  lemma {:induction false} ClaimFinishes(b: Books, account: string, job: string, amount: nat, now: Time,
                                         nulls: NullOrder)
    requires Held(b.reservations, job, account)
    requires ChargeError(b.wallets, b.lots, account, Max(amount - b.reservations[job].reserved, 0), amount, now) == None
    ensures CommitClaimed(b, account, job, amount, now, nulls).books == Finished(b, account, job, amount, now, nulls)
  {
  }

  /** A charge that succeeds ends in any books that agree table by table with `Finished`. */
  lemma {:induction false} FinishedOutcome(b: Books, b': Books, account: string, job: string, amount: nat, now: Time,
                                           nulls: NullOrder)
    requires Held(b.reservations, job, account)
    requires ChargeError(b.wallets, b.lots, account, Max(amount - b.reservations[job].reserved, 0), amount, now) == None
    requires var r := b.reservations[job];
             && b'.wallets == Adjust(b.wallets, account, r.reserved - amount, 0 - r.reserved)
             && b'.lots == Drain(b.lots, account, now, amount, nulls)
             && b'.ledger == InsertDebit(b.ledger, account, job, r.reserved, amount)
             && b'.reservations == b.reservations[job := r.(status := Committed, final := Some(amount))]
    ensures CommitClaimed(b, account, job, amount, now, nulls).books == b'
  {
    FinishedTables(b, b', account, job, amount, now, nulls);
    ClaimFinishes(b, account, job, amount, now, nulls);
  }

  /** The commit gets past the claim and the wallet, and then the lots are short. */
  predicate LotsRunShort(b: Books, account: string, job: string, amount: nat, now: Time) {
    && Held(b.reservations, job, account)
    && amount <= b.reservations[job].reserved + Available(b.wallets, account)
    && Alive(b.lots, account, now) < amount
  }

  lemma {:induction false} ActiveIsUnclaimed(b: Books, account: string, job: string)
    requires Sound(b) && Held(b.reservations, job, account)
    ensures b.reservations[job := Unclaimed(b.reservations[job])] == b.reservations
    ensures account in b.wallets
  {
    assert Documented(b, job);
    HoldWithinTotal(b, account, job);
  }

  lemma {:induction false} FreshIsInserted(ledger: seq<Entry>, rows: seq<Entry>)
    requires forall i :: 0 <= i < |rows| ==> !HasKey(ledger, rows[i].key)
    requires forall i, j :: 0 <= i < j < |rows| ==> rows[i].key != rows[j].key
    ensures InsertRows(ledger, rows) == ledger + rows
    decreases |rows|
  {
    if rows != [] {
      forall i | 0 <= i < |rows[1..]| ensures !HasKey(ledger + [rows[0]], rows[1..][i].key) {
        FindAppend(ledger, rows[0], rows[i + 1].key);
      }
      FreshIsInserted(ledger + [rows[0]], rows[1..]);
      assert ledger + [rows[0]] + rows[1..] == ledger + rows;
    }
  }

  lemma {:induction false} FreshRowsAreInserted(ledger: seq<Entry>, account: string, job: string, reserved: nat,
                                                amount: nat)
    requires !HasKey(ledger, JobKey(Debit(job))) && !HasKey(ledger, JobKey(Refund(job)))
    ensures InsertDebit(ledger, account, job, reserved, amount) == ledger + DebitRows(account, job, reserved, amount)
  {
    JobKeyTag(Debit(job));
    JobKeyTag(Refund(job));
    FreshIsInserted(ledger, DebitRows(account, job, reserved, amount));
  }

  lemma {:induction false} HeldIsFresh(b: Books, account: string, job: string)
    requires Sound(b) && GrantsForeign(b.ledger) && Held(b.reservations, job, account)
    ensures !HasKey(b.ledger, JobKey(Debit(job))) && !HasKey(b.ledger, JobKey(Refund(job)))
    ensures b.reservations[job := Unclaimed(b.reservations[job])] == b.reservations
    ensures account in b.wallets && Available(b.wallets, account) >= 0
  {
    ActiveIsUnclaimed(b, account, job);
    ActiveIsUncommitted(b, account, job);
    NothingIsNegative(b, account);
  }

  lemma {:induction false} FreshClaimAgrees(b: Books, account: string, job: string, amount: nat, now: Time,
                                            nulls: NullOrder)
    requires Held(b.reservations, job, account) && !LotsRunShort(b, account, job, amount, now)
    requires !HasKey(b.ledger, JobKey(Debit(job))) && !HasKey(b.ledger, JobKey(Refund(job)))
    requires b.reservations[job := Unclaimed(b.reservations[job])] == b.reservations
    requires account in b.wallets && Available(b.wallets, account) >= 0
    ensures CommitClaimed(b, account, job, amount, now, nulls) == CommitTx(b, account, job, amount, now, nulls)
  {
    FreshRowsAreInserted(b.ledger, account, job, b.reservations[job].reserved, amount);
  }

  /** Away from short lots the in-memory branch does what the transaction does. */
  lemma {:induction false} AgreesWithTransaction(b: Books, account: string, job: string, amount: nat, now: Time,
                                                 nulls: NullOrder)
    requires Sound(b) && GrantsForeign(b.ledger) && !LotsRunShort(b, account, job, amount, now)
    ensures Commit(b, account, job, amount, now, nulls) == CommitTx(b, account, job, amount, now, nulls)
  {
    if Held(b.reservations, job, account) {
      HeldIsFresh(b, account, job);
      FreshClaimAgrees(b, account, job, amount, now, nulls);
    }
  }

  lemma {:induction false} ShortCommitLeaves(b: Books, account: string, job: string, amount: nat, now: Time,
                                             nulls: NullOrder)
    requires Sound(b) && GrantsForeign(b.ledger) && LotsRunShort(b, account, job, amount, now)
    ensures var b' := Commit(b, account, job, amount, now, nulls).books;
            var extra := Max(amount - b.reservations[job].reserved, 0);
            && Available(b'.wallets, account) == Available(b.wallets, account) - extra
            && Reserved(b'.wallets, account) == Reserved(b.wallets, account)
            && Total(b'.lots, account) == Total(b.lots, account) - Alive(b.lots, account, now)
            && b'.reservations == b.reservations && b'.ledger == b.ledger
            && (extra == 0 && Alive(b.lots, account, now) == 0 ==> b' == b)
  {
    HeldIsFresh(b, account, job);
    var extra := Max(amount - b.reservations[job].reserved, 0);
    ShortClaim(b, account, job, extra, amount, now, nulls);
    DrainTakes(b.lots, account, now, amount, nulls);
    if Alive(b.lots, account, now) == 0 {
      NothingToDrain(b.lots, account, now, amount, nulls);
    }
  }

  lemma {:induction false} ShortClaim(b: Books, account: string, job: string, extra: nat, amount: nat, now: Time,
                                      nulls: NullOrder)
    requires LotsRunShort(b, account, job, amount, now) && !HasKey(b.ledger, JobKey(Debit(job)))
    requires account in b.wallets && b.reservations[job := Unclaimed(b.reservations[job])] == b.reservations
    requires extra == Max(amount - b.reservations[job].reserved, 0)
    ensures Commit(b, account, job, amount, now, nulls).books
            == b.(wallets := Adjust(b.wallets, account, 0 - extra, 0),
                  lots := Drain(b.lots, account, now, amount, nulls))
  {
  }

  lemma {:induction false} NothingToDrain(lots: seq<Lot>, account: string, now: Time, amount: nat, nulls: NullOrder)
    requires Alive(lots, account, now) == 0
    ensures Drain(lots, account, now, amount, nulls) == lots
  {
    var first := First(lots, account, now, nulls);
    if first.Some? {
      ShareBelowSum(lots, first.value, LiveFor(account, now));
    }
  }

  /** All-or-nothing is false here: a failing in-memory commit leaves the books as they were
      exactly when the lots did not run short, or there was nothing to take before they did. */
  lemma {:induction false} AllOrNothingIff(b: Books, account: string, job: string, amount: nat, now: Time,
                                           nulls: NullOrder)
    requires Sound(b) && GrantsForeign(b.ledger)
    requires Commit(b, account, job, amount, now, nulls).reply.Failed?
    ensures Commit(b, account, job, amount, now, nulls).books == b <==>
            (LotsRunShort(b, account, job, amount, now) ==>
               amount <= b.reservations[job].reserved && Alive(b.lots, account, now) == 0)
  {
    if LotsRunShort(b, account, job, amount, now) {
      ShortCommitLeaves(b, account, job, amount, now, nulls);
    } else {
      AgreesWithTransaction(b, account, job, amount, now, nulls);
    }
  }

  /** After such a failure wallet and lots disagree unless what the wallet lost happens to
      equal what the lots lost. */
  lemma {:induction false} ShortCommitUnbalancesIff(b: Books, account: string, job: string, amount: nat, now: Time,
                                                    nulls: NullOrder)
    requires Sound(b) && GrantsForeign(b.ledger) && LotsRunShort(b, account, job, amount, now)
    ensures var b' := Commit(b, account, job, amount, now, nulls).books;
            Available(b'.wallets, account) + Reserved(b'.wallets, account) == Total(b'.lots, account)
            <==> Max(amount - b.reservations[job].reserved, 0) == Alive(b.lots, account, now)
  {
    ShortCommitLeaves(b, account, job, amount, now, nulls);
    assert Balanced(b, account);
  }

  // ---------- A failure that takes something with it ----------

  /** A commit of a reservation that unexpired credit covers in part, but not in full, fails and
      leaves other books than it found. */
  lemma {:induction false} PartlyCoveredCommitIsPartial(b: Books, account: string, job: string, amount: nat, now: Time,
                                                        nulls: NullOrder) returns (outcome: Outcome)
    requires Sound(b) && GrantsForeign(b.ledger) && Held(b.reservations, job, account)
    requires 0 < Alive(b.lots, account, now) < amount == b.reservations[job].reserved
    ensures outcome == Commit(b, account, job, amount, now, nulls)
    ensures outcome.reply.Failed? && outcome.books != b
  {
    outcome := Commit(b, account, job, amount, now, nulls);
    NothingIsNegative(b, account);
    HeldIsFresh(b, account, job);
    AllOrNothingIff(b, account, job, amount, now, nulls);
  }

  /** Two grants that expire one after the other, both reserved. */
  function TwoGrantsReserved(
      account: string, job: string, first: nat, second: nat, source: string, key: string, key': string, early: Time,
      late: Time): seq<Call>
  {
    [GrantCredits(account, first, source, Some(early), key),
     GrantCredits(account, second, source, Some(late), key'),
     ReserveCredits(account, job, first + second)]
  }

  lemma {:induction false} TwoGrantsAdd(
      account: string, first: nat, second: nat, source: string, key: string, key': string, early: Time, late: Time,
      unused: string)
    requires first > 0 && second > 0 && early < late && key != key' && key != unused && key' != unused
    ensures var b1 := GrantTx(Empty, account, first, source, Some(early), key).books;
            var b2 := GrantTx(b1, account, second, source, Some(late), key').books;
            && account in b2.wallets && Available(b2.wallets, account) == first + second
            && b2.reservations == map[] && !HasKey(b2.ledger, unused)
            && Alive(b2.lots, account, early) == second
  {
    GrantAdds(Empty, account, first, source, early, key, early, key');
    GrantAdds(Empty, account, first, source, early, key, early, unused);
    var b1 := GrantTx(Empty, account, first, source, Some(early), key).books;
    GrantAdds(b1, account, second, source, late, key', early, unused);
  }

  lemma {:induction false} RunThree(x: Call, y: Call, z: Call, b1: Books, b2: Books, nulls: NullOrder, c1: seq<Call>,
                                    c2: seq<Call>, c3: seq<Call>)
    requires b1 == Perform(Empty, x, nulls).books && b2 == Perform(b1, y, nulls).books
    requires c1 == [] + [x] && c2 == c1 + [y] && c3 == c2 + [z]
    ensures Run(Empty, c3, nulls) == Perform(b2, z, nulls).books
  {
    RunAppend(Empty, [], x, nulls);
    RunAppend(Empty, c1, y, nulls);
    RunAppend(Empty, c2, z, nulls);
  }

  lemma {:induction false} GrantAlone(b: Books, c: Call, nulls: NullOrder) returns (after: Books)
    requires c.GrantCredits? && c.amount > 0 && b.reservations == map[]
    ensures after == Perform(b, c, nulls).books == GrantTx(b, c.account, c.amount, c.source, c.expires, c.key).books
    ensures after.reservations == map[]
  {
    after := Perform(b, c, nulls).books;
  }

  lemma {:induction false} ReserveAlone(b: Books, c: Call, nulls: NullOrder)
    requires c.ReserveCredits? && c.amount > 0 && b.reservations == map[]
    ensures Perform(b, c, nulls) == ReserveTx(b, c.account, c.job, c.amount)
  {
  }

  lemma {:induction false} TwoGrantsRun(x: Call, y: Call, z: Call, b1: Books, b2: Books, nulls: NullOrder)
    requires x.GrantCredits? && x.amount > 0 && y.GrantCredits? && y.amount > 0 && z.ReserveCredits? && z.amount > 0
    requires b1 == GrantTx(Empty, x.account, x.amount, x.source, x.expires, x.key).books
    requires b2 == GrantTx(b1, y.account, y.amount, y.source, y.expires, y.key).books
    ensures Run(Empty, [x, y, z], nulls) == ReserveTx(b2, z.account, z.job, z.amount).books
  {
    var after1 := GrantAlone(Empty, x, nulls);
    var after2 := GrantAlone(b1, y, nulls);
    ReserveAlone(b2, z, nulls);
    RunThree(x, y, z, b1, b2, nulls, [x], [x, y], [x, y, z]);
  }

  lemma {:induction false} TwoGrantsAreHeld(
      account: string, job: string, first: nat, second: nat, source: string, key: string, key': string, early: Time,
      late: Time, nulls: NullOrder, b: Books)
    requires first > 0 && second > 0 && early < late && Foreign(key) && Foreign(key') && key != key'
    requires b == Run(Empty, TwoGrantsReserved(account, job, first, second, source, key, key', early, late), nulls)
    ensures Held(b.reservations, job, account) && b.reservations[job].reserved == first + second
            && Alive(b.lots, account, early) == second
  {
    JobKeyIsNotForeign(Reserve(job, 1));
    TwoGrantsAdd(account, first, second, source, key, key', early, late, JobKey(Reserve(job, 1)));
    var b1 := GrantTx(Empty, account, first, source, Some(early), key).books;
    var b2 := GrantTx(b1, account, second, source, Some(late), key').books;
    var calls := TwoGrantsReserved(account, job, first, second, source, key, key', early, late);
    TwoGrantsRun(calls[0], calls[1], calls[2], b1, b2, nulls);
    ReserveHolds(b2, account, job, first + second);
  }

  lemma {:induction false} TwoGrantsReached(
      account: string, job: string, first: nat, second: nat, source: string, key: string, key': string, early: Time,
      late: Time, nulls: NullOrder) returns (calls: seq<Call>, b: Books)
    requires first > 0 && second > 0 && early < late && Foreign(key) && Foreign(key') && key != key'
    ensures calls == TwoGrantsReserved(account, job, first, second, source, key, key', early, late)
    ensures b == Run(Empty, calls, nulls) && Sound(b) && GrantsForeign(b.ledger)
    ensures Held(b.reservations, job, account) && b.reservations[job].reserved == first + second
    ensures Alive(b.lots, account, early) == second
  {
    calls := TwoGrantsReserved(account, job, first, second, source, key, key', early, late);
    b := Run(Empty, calls, nulls);
    EveryRunIsSound(calls, nulls);
    ForeignRun(calls, nulls);
    TwoGrantsAreHeld(account, job, first, second, source, key, key', early, late, nulls, b);
  }

  /** So all-or-nothing fails in books that calls can reach: after two grants, both reserved, when
      the first of them expires, the commit of the reservation fails in part. */
  lemma {:induction false} PartialFailureIsReachable(
      account: string, job: string, first: nat, second: nat, both: nat, source: string, key: string, key': string,
      early: Time, late: Time, nulls: NullOrder) returns (calls: seq<Call>, b: Books, outcome: Outcome)
    requires first > 0 && second > 0 && both == first + second && early < late
    requires Foreign(key) && Foreign(key') && key != key'
    ensures calls == TwoGrantsReserved(account, job, first, second, source, key, key', early, late)
    ensures b == Run(Empty, calls, nulls)
    ensures outcome == Commit(b, account, job, both, early, nulls)
    ensures outcome.reply.Failed? && outcome.books != b
  {
    calls, b := TwoGrantsReached(account, job, first, second, source, key, key', early, late, nulls);
    outcome := PartlyCoveredCommitIsPartial(b, account, job, both, early, nulls);
  }
}
