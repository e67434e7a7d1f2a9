/** What the calls of the billing service do to a customer's credit. */
module ServiceEffects {
  import opened Wrappers
  import opened CreditLots
  import opened LedgerKeys
  import opened CreditLedger
  import opened LedgerHistory
  import opened LedgerGuarantees
  import opened LedgerEffects
  import opened BillingService

  /** `after` has one more lot and one more row than `b`, and a wallet that is that much larger. */
  predicate Granted(b: Books, after: Books, account: string, amount: nat, source: string, expires: Time, key: string) {
    && WalletMoved(b, after, account, amount, 0)
    && after.wallets - {account} == b.wallets - {account}
    && after.reservations == b.reservations
    && after.lots == b.lots + [Lot(account, source, amount, Some(expires))]
    && after.ledger == b.ledger + [Entry(account, Grant(source, Some(expires)), amount, key)]
  }

  lemma {:induction false} GrantIsGranted(b: Books, c: Call, expires: Time, nulls: NullOrder)
    requires c.GrantCredits? && c.amount > 0 && c.expires == Some(expires)
    requires forall e :: e in b.ledger ==> e.key != c.key
    ensures Granted(b, Run(b, [c], nulls), c.account, c.amount, c.source, expires, c.key)
  {
    RunOne(b, c, nulls);
    GrantEffects(b, c.account, c.amount, c.source, c.expires, c.key, nulls, Perform(b, c, nulls), 0);
  }

  /** The first call of an owner grants the trial, to expire a trial period later. */
  lemma {:induction false} TrialIsGranted(b: Books, user: User, plans: Plans, now: Time, nulls: NullOrder)
    requires plans.trialCredits > 0 && forall e :: e in b.ledger ==> e.key != "free_trial:" + user.owner
    ensures Granted(b, Run(b, StoreCalls(EnsureAccount(user, now), plans), nulls), user.account, plans.trialCredits,
                    "free_trial", now + plans.trialPeriod, "free_trial:" + user.owner)
  {
    GrantIsGranted(b, TrialCalls(user, plans, now)[0], now + plans.trialPeriod, nulls);
  }

  /** A subscription payment seen for the first time grants the monthly credits. */
  lemma {:induction false} ProIsGranted(b: Books, account: string, subscription: string, payment: string,
                                        expires: Time, plans: Plans, nulls: NullOrder, key: string)
    requires plans.proCredits > 0 && key == "pro_grant:" + subscription + ":" + payment
    requires forall e :: e in b.ledger ==> e.key != key
    ensures Granted(b, Run(b, StoreCalls(GrantPro(account, subscription, payment, expires), plans), nulls), account,
                    plans.proCredits, "pro_monthly", expires, key)
  {
    assert key == "pro_grant:" + (subscription + ":" + payment);
    GrantIsGranted(b, StoreCalls(GrantPro(account, subscription, payment, expires), plans)[0], expires, nulls);
  }

  /** An order payment seen for the first time grants the credits of the pack. */
  lemma {:induction false} TopupIsGranted(b: Books, account: string, pack: string, credits: nat, order: string,
                                          payment: string, expires: Time, plans: Plans, nulls: NullOrder, key: string)
    requires credits > 0 && key == "topup_grant:" + order + ":" + payment
    requires forall e :: e in b.ledger ==> e.key != key
    ensures Granted(b, Run(b, StoreCalls(GrantTopup(account, pack, credits, order, payment, expires), plans), nulls),
                    account, credits, pack, expires, key)
  {
    assert key == "topup_grant:" + (order + ":" + payment);
    GrantIsGranted(b, StoreCalls(GrantTopup(account, pack, credits, order, payment, expires), plans)[0], expires,
                   nulls);
  }

  /** What a reserved job leaves behind, in books in which the trial has been offered. */
  lemma {:induction false} JobIsReserved(b: Books, user: User, job: string, amount: nat, plans: Plans, now: Time,
                                         nulls: NullOrder, offered: Books, reserved: Books)
    requires Sound(b) && GrantsForeign(b.ledger)
    requires offered == Run(b, StoreCalls(EnsureAccount(user, now), plans), nulls)
    requires reserved == Run(b, StoreCalls(ReserveJob(user, job, amount, now), plans), nulls)
    ensures Sound(offered) && GrantsForeign(offered.ledger)
    ensures reserved == Perform(offered, ReserveCredits(user.account, job, amount), nulls).books
  {
    RunAppend(b, TrialCalls(user, plans, now), ReserveCredits(user.account, job, amount), nulls);
    RunNothing(b, nulls);
    if plans.trialCredits > 0 {
      var grant := TrialCalls(user, plans, now)[0];
      RunOne(b, grant, nulls);
      ServiceGrants(EnsureAccount(user, now), plans, 0);
      TransactKeepsSound(b, grant, nulls);
      CallKeepsForeign(b, grant, nulls);
    }
  }

  /** A job that is reserved and released costs nothing. */
  lemma {:induction false} ReleasedJobCostsNothing(b: Books, user: User, job: string, amount: nat, plans: Plans,
                                                   now: Time, nulls: NullOrder, offered: Books, reserved: Books)
    requires Sound(b) && GrantsForeign(b.ledger)
    requires offered == Run(b, StoreCalls(EnsureAccount(user, now), plans), nulls)
    requires Open(offered, user.account, job) && 0 < amount <= Available(offered.wallets, user.account)
    requires reserved == Run(b, StoreCalls(ReserveJob(user, job, amount, now), plans), nulls)
    ensures WalletMoved(offered, reserved, user.account, 0 - amount, amount)
    ensures var released := Run(reserved, StoreCalls(ReleaseJob(user.account, job), plans), nulls);
            released.wallets == offered.wallets && released.lots == offered.lots
  {
    JobIsReserved(b, user, job, amount, plans, now, nulls, offered, reserved);
    var n := NextVersion(offered, job);
    ReserveEffects(offered, user.account, job, amount, nulls,
                   Perform(offered, ReserveCredits(user.account, job, amount), nulls), n,
                   Reservation(user.account, amount, Active, n, None));
    RunOne(reserved, ReleaseReservation(user.account, job), nulls);
    ReleaseUndoesReserve(offered, user.account, job, amount, nulls, reserved,
                         Perform(reserved, ReleaseReservation(user.account, job), nulls).books);
  }

  /** A job that is reserved and then charged costs what it is charged, whatever was reserved, as
      long as live credit covers it. */
  lemma {:induction false} CommittedJobCosts(b: Books, user: User, job: string, amount: nat, charge: nat, plans: Plans,
                                             now: Time, later: Time, nulls: NullOrder, offered: Books, reserved: Books)
    requires Sound(b) && GrantsForeign(b.ledger)
    requires offered == Run(b, StoreCalls(EnsureAccount(user, now), plans), nulls)
    requires Open(offered, user.account, job) && 0 < amount <= Available(offered.wallets, user.account)
    requires reserved == Run(b, StoreCalls(ReserveJob(user, job, amount, now), plans), nulls)
    requires 0 < charge <= Available(offered.wallets, user.account)
    requires charge <= Alive(offered.lots, user.account, later)
    ensures var charged := Run(reserved, StoreCalls(CommitJob(user.account, job, charge, later), plans), nulls);
            WalletMoved(offered, charged, user.account, 0 - charge, 0)
            && Alive(charged.lots, user.account, later) == Alive(offered.lots, user.account, later) - charge
  {
    JobIsReserved(b, user, job, amount, plans, now, nulls, offered, reserved);
    var commit := CommitDebit(user.account, job, charge, later);
    RunOne(reserved, commit, nulls);
    CommitCostsCharge(offered, user.account, job, amount, charge, later, nulls, reserved,
                      Perform(reserved, commit, nulls).books);
  }
}
