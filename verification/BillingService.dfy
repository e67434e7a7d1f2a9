/** `BillingService`: the calls the rest of the system makes, each a short run of store calls. */
module BillingService {
  import opened Wrappers
  import opened CreditLots
  import opened LedgerKeys
  import opened CreditLedger
  import opened LedgerHistory
  import opened LedgerGuarantees
  import opened GrantKeys
  import opened BillingStore
  import opened Metering

  /** Configuration read from the plan tables. */
  datatype Plans = Plans(trialCredits: nat, trialPeriod: nat, proCredits: nat)

  /** A user and the account that belongs to them. */
  datatype User = User(owner: string, account: string)

  datatype ServiceCall =
    | EnsureAccount(user: User, now: Time)
    | ReserveJob(user: User, job: string, reserved: nat, now: Time)
    | CommitJob(account: string, job: string, credits: nat, now: Time)
    | ReleaseJob(account: string, job: string)
    | GrantPro(account: string, subscription: string, payment: string, expires: Time)
    | GrantTopup(account: string, pack: string, credits: nat, order: string, payment: string, expires: Time)

  /** Every call offers the trial, expiring a trial period after the call. */
  function TrialCalls(user: User, plans: Plans, now: Time): seq<Call> {
    if plans.trialCredits > 0 then
      [GrantCredits(user.account, plans.trialCredits, "free_trial", Some(now + plans.trialPeriod),
                    GrantKey(Trial(user.owner)))]
    else []
  }

  /** The store calls behind a service call. */
  function StoreCalls(c: ServiceCall, plans: Plans): seq<Call> {
    match c
    case EnsureAccount(user, now) => TrialCalls(user, plans, now)
    case ReserveJob(user, job, reserved, now) =>
      TrialCalls(user, plans, now) + [ReserveCredits(user.account, job, reserved)]
    case CommitJob(account, job, credits, now) => [CommitDebit(account, job, credits, now)]
    case ReleaseJob(account, job) => [ReleaseReservation(account, job)]
    case GrantPro(account, subscription, payment, expires) =>
      [GrantCredits(account, plans.proCredits, "pro_monthly", Some(expires), GrantKey(Pro(subscription, payment)))]
    case GrantTopup(account, pack, credits, order, payment, expires) =>
      [GrantCredits(account, credits, pack, Some(expires), GrantKey(Topup(order, payment)))]
  }

  function AllStoreCalls(cs: seq<ServiceCall>, plans: Plans): seq<Call> {
    if cs == [] then [] else AllStoreCalls(cs[..|cs| - 1], plans) + StoreCalls(cs[|cs| - 1], plans)
  }

  class BillingService {
    const store: BillingStore
    const plans: Plans

    constructor (store: BillingStore, plans: Plans)
      ensures this.store == store && this.plans == plans
    {
      this.store := store;
      this.plans := plans;
    }

    method EnsureBillingAccount(user: User, now: Time)
      modifies store
      ensures store.Snapshot() == Run(old(store.Snapshot()), StoreCalls(EnsureAccount(user, now), plans), store.nulls)
    {
      RunNothing(store.Snapshot(), store.nulls);
      if plans.trialCredits > 0 {
        RunOne(store.Snapshot(), StoreCalls(EnsureAccount(user, now), plans)[0], store.nulls);
        var key := GrantKey(Trial(user.owner));
        var _ := store.GrantCredits(user.account, plans.trialCredits, "free_trial", Some(now + plans.trialPeriod), key);
      }
    }

    method ReserveJobCredits(
        user: User, job: string, work: Job, tokens: string -> nat, multiplier: real, buffer: real, now: Time)
      returns (estimate: Estimate, reply: Reply)
      modifies store
      ensures estimate == EstimateCredits(work, tokens, multiplier, buffer)
      ensures store.Snapshot()
           == Run(old(store.Snapshot()), StoreCalls(ReserveJob(user, job, estimate.reserved, now), plans), store.nulls)
      ensures reply == Perform(Run(old(store.Snapshot()), TrialCalls(user, plans, now), store.nulls),
                               ReserveCredits(user.account, job, estimate.reserved), store.nulls).reply
    {
      ghost var before := store.Snapshot();
      EnsureBillingAccount(user, now);
      estimate := EstimateCredits(work, tokens, multiplier, buffer);
      RunAppend(before, TrialCalls(user, plans, now), ReserveCredits(user.account, job, estimate.reserved),
                store.nulls);
      reply := store.ReserveCredits(user.account, job, estimate.reserved);
    }

    /** Charges what the providers reported, or the estimate without the reservation buffer. */
    method CommitJobBilling(account: Option<string>, job: string, reported: Option<nat>, work: Job,
                            tokens: string -> nat, multiplier: real, now: Time)
      returns (charged: nat, reply: Option<Reply>)
      modifies store
      ensures charged == if reported.Some? && reported.value > 0 then reported.value
                         else EstimateCredits(work, tokens, multiplier, 1.0).billable
      ensures account.None? ==> store.Snapshot() == old(store.Snapshot()) && reply == None
      ensures account.Some? ==>
                var before := old(store.Snapshot());
                var calls := StoreCalls(CommitJob(account.value, job, charged, now), plans);
                && store.Snapshot() == Run(before, calls, store.nulls)
                && reply == Some(Perform(before, CommitDebit(account.value, job, charged, now), store.nulls).reply)
    {
      charged := if reported.Some? && reported.value > 0 then reported.value
                 else EstimateCredits(work, tokens, multiplier, 1.0).billable;
      if account.None? {
        return charged, None;
      }
      RunOne(store.Snapshot(), CommitDebit(account.value, job, charged, now), store.nulls);
      var answer := store.CommitDebit(account.value, job, charged, now);
      reply := Some(answer);
    }

    method ReleaseJobBilling(account: Option<string>, job: string)
      modifies store
      ensures account.None? ==> store.Snapshot() == old(store.Snapshot())
      ensures account.Some? ==>
                store.Snapshot()
                == Run(old(store.Snapshot()), StoreCalls(ReleaseJob(account.value, job), plans), store.nulls)
    {
      if account.Some? {
        RunOne(store.Snapshot(), ReleaseReservation(account.value, job), store.nulls);
        var _ := store.ReleaseReservation(account.value, job);
      }
    }

    method GrantProSubscription(account: string, subscription: string, payment: string, expires: Time)
      returns (reply: Reply)
      modifies store
      ensures var calls := StoreCalls(GrantPro(account, subscription, payment, expires), plans);
              && store.Snapshot() == Run(old(store.Snapshot()), calls, store.nulls)
              && reply == Perform(old(store.Snapshot()), calls[0], store.nulls).reply
    {
      RunOne(store.Snapshot(), StoreCalls(GrantPro(account, subscription, payment, expires), plans)[0], store.nulls);
      var key := GrantKey(Pro(subscription, payment));
      reply := store.GrantCredits(account, plans.proCredits, "pro_monthly", Some(expires), key);
    }

    method GrantTopupPack(account: string, pack: string, credits: nat, order: string, payment: string, expires: Time)
      returns (reply: Reply)
      modifies store
      ensures var calls := StoreCalls(GrantTopup(account, pack, credits, order, payment, expires), plans);
              && store.Snapshot() == Run(old(store.Snapshot()), calls, store.nulls)
              && reply == Perform(old(store.Snapshot()), calls[0], store.nulls).reply
    {
      RunOne(store.Snapshot(), StoreCalls(GrantTopup(account, pack, credits, order, payment, expires), plans)[0],
             store.nulls);
      reply := store.GrantCredits(account, credits, pack, Some(expires), GrantKey(Topup(order, payment)));
    }
  }

  lemma {:induction false} RunNothing(b: Books, nulls: NullOrder)
    ensures Run(b, [], nulls) == b
  {
  }

  lemma {:induction false} RunOne(b: Books, c: Call, nulls: NullOrder)
    ensures Run(b, [c], nulls) == Perform(b, c, nulls).books
  {
    RunAppend(b, [], c, nulls);
    assert [] + [c] == [c];
  }

  // ---------- What the service guarantees ----------

  lemma {:induction false} ServiceGrants(c: ServiceCall, plans: Plans, i: nat)
    requires i < |StoreCalls(c, plans)|
    ensures ForeignCall(StoreCalls(c, plans)[i])
    ensures StoreCalls(c, plans)[i].GrantCredits? ==> StoreCalls(c, plans)[i].expires.Some?
  {
    if StoreCalls(c, plans)[i].GrantCredits? {
      ForeignByFirstLetter(StoreCalls(c, plans)[i].key);
    }
  }

  lemma {:induction false} AllServiceGrants(cs: seq<ServiceCall>, plans: Plans)
    ensures forall i :: 0 <= i < |AllStoreCalls(cs, plans)| ==> ForeignCall(AllStoreCalls(cs, plans)[i])
    ensures forall i :: 0 <= i < |AllStoreCalls(cs, plans)| && AllStoreCalls(cs, plans)[i].GrantCredits? ==>
              AllStoreCalls(cs, plans)[i].expires.Some?
  {
    if cs != [] {
      var n := |cs| - 1;
      AllServiceGrants(cs[..n], plans);
      forall i: nat | i < |StoreCalls(cs[n], plans)|
        ensures ForeignCall(StoreCalls(cs[n], plans)[i])
        ensures StoreCalls(cs[n], plans)[i].GrantCredits? ==> StoreCalls(cs[n], plans)[i].expires.Some?
      {
        ServiceGrants(cs[n], plans, i);
      }
    }
  }

  /** However often an owner calls, the trial is granted once: a later offer, with its later
      expiry, changes nothing. */
  lemma {:induction false} TrialIsGrantedOnce(b: Books, user: User, plans: Plans, now: Time, later: Time,
                                              nulls: NullOrder)
    ensures var granted := Run(b, TrialCalls(user, plans, now), nulls);
            Run(granted, TrialCalls(user, plans, later), nulls) == granted
  {
    if plans.trialCredits > 0 {
      var grant := TrialCalls(user, plans, now)[0];
      RunOne(b, grant, nulls);
      SuccessSpends(b, grant, nulls);
      RunOne(Run(b, [grant], nulls), TrialCalls(user, plans, later)[0], nulls);
    }
  }

  /** Whatever sequence of service calls has been made: the books are sound, the next store
      call meets no used key, and both lot orders have produced the same books. */
  lemma {:induction false} ServiceRunIsSafe(cs: seq<ServiceCall>, plans: Plans, next: Call, nulls: NullOrder)
    ensures var b := Run(Empty, AllStoreCalls(cs, plans), nulls);
            && Sound(b) && GrantsForeign(b.ledger)
            && Perform(b, next, nulls).reply != Failed(DuplicateKey)
            && b == Run(Empty, AllStoreCalls(cs, plans), NullsLast)
  {
    var calls := AllStoreCalls(cs, plans);
    AllServiceGrants(cs, plans);
    EveryRunIsSound(calls, nulls);
    ForeignRun(calls, nulls);
    ExpiringGrantsMakeOrdersAgree(calls);
    KeysAreFresh(Run(Empty, calls, nulls), next, nulls);
  }

  /** A job reserved on its estimate and charged on the same estimate never needs more than its
      reservation: its commit succeeds and refunds the buffer, or live lots have run short. */
  lemma {:induction false} EstimatedJobCommits(b: Books, account: string, job: string, work: Job, tokens: string -> nat,
                            multiplier: real, buffer: real, now: Time, nulls: NullOrder)
    requires Sound(b) && GrantsForeign(b.ledger) && Held(b.reservations, job, account)
    requires b.reservations[job].reserved == EstimateCredits(work, tokens, multiplier, buffer).reserved
    ensures var charge := EstimateCredits(work, tokens, multiplier, 1.0).billable;
            var result := Perform(b, CommitDebit(account, job, charge, now), nulls);
            if charge <= Alive(b.lots, account, now)
            then && result.reply == Row(JobEntry(account, Debit(job), 0 - charge))
                 && Available(result.books.wallets, account)
                    == Available(b.wallets, account) + b.reservations[job].reserved - charge
            else result == Fail(b, LotsShort(charge - Alive(b.lots, account, now)))
  {
    ReservationCoversCharge(work, tokens, multiplier, buffer);
    NothingIsNegative(b, account);
    HoldWithinTotal(b, account, job);
    CommitShortIff(b, account, job, EstimateCredits(work, tokens, multiplier, 1.0).billable, now, nulls);
  }
}
