/** Consequences for callers: exactly-once effects, when a commit can fail, and optimal spending. */
module LedgerGuarantees {
  import opened Wrappers
  import opened CreditLots
  import opened LotDrawing
  import opened NullFirstDrawing
  import opened LedgerKeys
  import opened CreditLedger
  import opened LedgerInvariants
  import opened LedgerHistory

  // ---------- The ledger only grows ----------

  lemma {:induction false} FindInPrefix(ledger: seq<Entry>, more: seq<Entry>, key: string)
    requires HasKey(ledger, key)
    ensures Find(ledger + more, key) == Find(ledger, key)
  {
    if more == [] {
      assert ledger + more == ledger;
    } else {
      var n := |more| - 1;
      FindInPrefix(ledger, more[..n], key);
      assert (ledger + more)[..|ledger + more| - 1] == ledger + more[..n];
    }
  }

  lemma {:induction false} LedgerGrows(b: Books, c: Call, nulls: NullOrder)
    ensures b.ledger <= Perform(b, c, nulls).books.ledger
  {
  }

  lemma {:induction false} RowStays(b: Books, c: Call, nulls: NullOrder, key: string)
    requires HasKey(b.ledger, key)
    ensures Find(Perform(b, c, nulls).books.ledger, key) == Find(b.ledger, key)
  {
    LedgerGrows(b, c, nulls);
    var after := Perform(b, c, nulls).books.ledger;
    assert after == b.ledger + after[|b.ledger|..];
    FindInPrefix(b.ledger, after[|b.ledger|..], key);
  }

  // ---------- Exactly once ----------

  /** The ledger already holds the row this grant or commit would write. */
  predicate Spent(b: Books, c: Call) {
    (c.GrantCredits? && HasKey(b.ledger, c.key)) || (c.CommitDebit? && HasKey(b.ledger, JobKey(Debit(c.job))))
  }

  /** A grant or commit that answers with a row has left that row in the ledger. */
  lemma {:induction false} SuccessSpends(b: Books, c: Call, nulls: NullOrder)
    requires c.GrantCredits? || c.CommitDebit?
    requires Perform(b, c, nulls).reply.Row?
    ensures Spent(Perform(b, c, nulls).books, c)
  {
    if c.GrantCredits? && !HasKey(b.ledger, c.key) {
      FindAppend(b.ledger, Entry(c.account, Grant(c.source, c.expires), c.amount, c.key), c.key);
    }
    if c.CommitDebit? && !HasKey(b.ledger, JobKey(Debit(c.job))) {
      var reserved := b.reservations[c.job].reserved;
      DebitRowsInOrder(b.ledger, c.account, c.job, reserved, c.amount);
      var debit := JobEntry(c.account, Debit(c.job), 0 - c.amount);
      FindAppend(b.ledger, debit, debit.key);
      if reserved > c.amount {
        FindInPrefix(b.ledger + [debit], [JobEntry(c.account, Refund(c.job), reserved - c.amount)], debit.key);
      }
    }
  }

  datatype Attempt = Attempt(call: Call, repeated: bool)

  function AllCalls(attempts: seq<Attempt>): seq<Call> {
    if attempts == [] then [] else AllCalls(attempts[..|attempts| - 1]) + [attempts[|attempts| - 1].call]
  }

  function FirstCalls(attempts: seq<Attempt>): seq<Call> {
    if attempts == [] then []
    else
      var last := attempts[|attempts| - 1];
      FirstCalls(attempts[..|attempts| - 1]) + if last.repeated then [] else [last.call]
  }

  lemma {:induction false} RunAppend(b: Books, calls: seq<Call>, c: Call, nulls: NullOrder)
    ensures Run(b, calls + [c], nulls) == Perform(Run(b, calls, nulls), c, nulls).books
  {
    assert (calls + [c])[..|calls|] == calls;
  }

  lemma {:induction false} SpentStaysOnce(b: Books, d: Call, c: Call, nulls: NullOrder)
    requires Spent(b, c)
    ensures Spent(Perform(b, d, nulls).books, c)
  {
    RowStays(b, d, nulls, if c.GrantCredits? then c.key else JobKey(Debit(c.job)));
  }

  lemma {:induction false} SpentStays(b: Books, calls: seq<Call>, c: Call, nulls: NullOrder)
    requires Spent(b, c)
    ensures Spent(Run(b, calls, nulls), c)
  {
    if calls != [] {
      var n := |calls| - 1;
      SpentStays(b, calls[..n], c, nulls);
      SpentStaysOnce(Run(b, calls[..n], nulls), calls[n], c, nulls);
    }
  }

  /** The two calls would write the same row: a grant key or a job's debit. */
  predicate SameRow(c: Call, d: Call) {
    (c.GrantCredits? && d.GrantCredits? && c.key == d.key) || (c.CommitDebit? && d.CommitDebit? && c.job == d.job)
  }

  /** The reply attempt `j` got in the run. */
  function ReplyTo(b: Books, attempts: seq<Attempt>, j: nat, nulls: NullOrder): Reply
    requires j < |attempts|
  {
    Perform(Run(b, AllCalls(attempts[..j]), nulls), attempts[j].call, nulls).reply
  }

  /** Attempt `i` repeats a grant or commit that had its row before the run, or that an earlier
      attempt of the run was answered with. */
  ghost predicate Repeats(b: Books, attempts: seq<Attempt>, i: nat, nulls: NullOrder)
    requires i < |attempts|
  {
    Spent(b, attempts[i].call)
    || exists j :: 0 <= j < i && SameRow(attempts[j].call, attempts[i].call) && ReplyTo(b, attempts, j, nulls).Row?
  }

  lemma {:induction false} AllCallsNext(attempts: seq<Attempt>, i: nat)
    requires i < |attempts|
    ensures AllCalls(attempts[..i + 1]) == AllCalls(attempts[..i]) + [attempts[i].call]
  {
    assert attempts[..i + 1][..i] == attempts[..i];
  }

  lemma {:induction false} AnsweredIsSpent(b: Books, attempts: seq<Attempt>, j: nat, i: nat, c: Call, nulls: NullOrder)
    requires j < i <= |attempts| && SameRow(attempts[j].call, c) && ReplyTo(b, attempts, j, nulls).Row?
    ensures Spent(Run(b, AllCalls(attempts[..i]), nulls), c)
    decreases i
  {
    var done := AllCalls(attempts[..i - 1]);
    AllCallsNext(attempts, i - 1);
    RunAppend(b, done, attempts[i - 1].call, nulls);
    if i == j + 1 {
      SuccessSpends(Run(b, done, nulls), attempts[j].call, nulls);
    } else {
      AnsweredIsSpent(b, attempts, j, i - 1, c, nulls);
      SpentStaysOnce(Run(b, done, nulls), attempts[i - 1].call, c, nulls);
    }
  }

  lemma {:induction false} RepeatIsSpent(b: Books, attempts: seq<Attempt>, i: nat, nulls: NullOrder)
    requires i < |attempts| && Repeats(b, attempts, i, nulls)
    ensures Spent(Run(b, AllCalls(attempts[..i]), nulls), attempts[i].call)
  {
    if Spent(b, attempts[i].call) {
      SpentStays(b, AllCalls(attempts[..i]), attempts[i].call, nulls);
    } else {
      var j :| 0 <= j < i && SameRow(attempts[j].call, attempts[i].call) && ReplyTo(b, attempts, j, nulls).Row?;
      AnsweredIsSpent(b, attempts, j, i, attempts[i].call, nulls);
    }
  }

  lemma {:induction false} FirstCallsNext(attempts: seq<Attempt>, i: nat)
    requires i < |attempts|
    ensures FirstCalls(attempts[..i + 1])
         == if attempts[i].repeated then FirstCalls(attempts[..i]) else FirstCalls(attempts[..i]) + [attempts[i].call]
  {
    assert attempts[..i + 1][..i] == attempts[..i];
  }

  lemma {:induction false} OneMoreAttempt(
      b: Books, all: seq<Call>, first: seq<Call>, c: Call, repeated: bool, all': seq<Call>, first': seq<Call>,
      nulls: NullOrder)
    requires Run(b, all, nulls) == Run(b, first, nulls)
    requires all' == all + [c] && first' == if repeated then first else first + [c]
    requires repeated ==> Spent(Run(b, all, nulls), c)
    ensures Run(b, all', nulls) == Run(b, first', nulls)
  {
    RunAppend(b, all, c, nulls);
    if !repeated { RunAppend(b, first, c, nulls); }
  }

  lemma {:induction false} RepeatsSoFar(b: Books, attempts: seq<Attempt>, n: nat, nulls: NullOrder)
    requires n <= |attempts|
    requires forall i :: 0 <= i < |attempts| && attempts[i].repeated ==> Repeats(b, attempts, i, nulls)
    ensures Run(b, AllCalls(attempts[..n]), nulls) == Run(b, FirstCalls(attempts[..n]), nulls)
    decreases n
  {
    if n > 0 {
      RepeatsSoFar(b, attempts, n - 1, nulls);
      AllCallsNext(attempts, n - 1);
      FirstCallsNext(attempts, n - 1);
      if attempts[n - 1].repeated { RepeatIsSpent(b, attempts, n - 1, nulls); }
      OneMoreAttempt(b, AllCalls(attempts[..n - 1]), FirstCalls(attempts[..n - 1]), attempts[n - 1].call,
                     attempts[n - 1].repeated, AllCalls(attempts[..n]), FirstCalls(attempts[..n]), nulls);
    }
  }

  /** Repeated grants and commits, inserted anywhere after their first success, change
      nothing in the run: the books are those of the run without them. */
  lemma {:induction false} RepeatsChangeNothing(b: Books, attempts: seq<Attempt>, nulls: NullOrder)
    requires forall i :: 0 <= i < |attempts| && attempts[i].repeated ==> Repeats(b, attempts, i, nulls)
    ensures Run(b, AllCalls(attempts), nulls) == Run(b, FirstCalls(attempts), nulls)
  {
    RepeatsSoFar(b, attempts, |attempts|, nulls);
    assert attempts[..|attempts|] == attempts;
  }

  lemma {:induction false} RowsHaveKeys(ledger: seq<Entry>, kind: Kind, job: string)
    requires Keyed(ledger) && kind in Rows(ledger, job)
    ensures About(kind, job) && HasKey(ledger, JobKey(kind))
  {
    var n := |ledger| - 1;
    if About(ledger[n].kind, job) && ledger[n].kind == kind {
      assert ledger[n] in ledger;
    } else {
      RowsHaveKeys(ledger[..n], kind, job);
      Unsnoc(ledger);
      FindAppend(ledger[..n], ledger[n], JobKey(kind));
    }
  }

  /** No call about a committed job, by any account, moves anything again. */
  lemma {:induction false} CommittedIsFinal(b: Books, c: Call, nulls: NullOrder)
    requires Sound(b) && !c.GrantCredits?
    requires c.job in b.reservations && b.reservations[c.job].status == Committed
    ensures Perform(b, c, nulls).books == b
  {
    CommittedHasDebit(b, c.job);
  }

  lemma {:induction false} CommittedHasDebit(b: Books, job: string)
    requires Sound(b) && job in b.reservations && b.reservations[job].status == Committed
    ensures HasKey(b.ledger, JobKey(Debit(job)))
  {
    assert Documented(b, job);
    var r := b.reservations[job];
    var life := Life(job, Some(r));
    var cycles := Cycles(job, r.version - 1) + [Reserve(job, r.version)];
    assert life[|cycles|] == Debit(job);
    RowsHaveKeys(b.ledger, Debit(job), job);
  }

  lemma {:induction false} CommittedStays(b: Books, c: Call, nulls: NullOrder, job: string, after: Books)
    requires Sound(b) && job in b.reservations && b.reservations[job].status == Committed
    requires after == Perform(b, c, nulls).books
    ensures Lookup(after.reservations, job) == Lookup(b.reservations, job)
  {
    if !c.GrantCredits? && c.job == job {
      CommittedIsFinal(b, c, nulls);
    }
  }

  lemma {:induction false} CommittedForever(b: Books, calls: seq<Call>, nulls: NullOrder, job: string)
    requires Sound(b) && job in b.reservations && b.reservations[job].status == Committed
    ensures Sound(Run(b, calls, nulls))
    ensures Lookup(Run(b, calls, nulls).reservations, job) == Lookup(b.reservations, job)
  {
    if calls != [] {
      var n := |calls| - 1;
      CommittedForever(b, calls[..n], nulls, job);
      var before := Run(b, calls[..n], nulls);
      TransactKeepsSound(before, calls[n], nulls);
      CommittedStays(before, calls[n], nulls, job, Run(b, calls, nulls));
    }
  }

  // ---------- When a commit fails ----------

  lemma {:induction false} ActiveIsUncommitted(b: Books, account: string, job: string)
    requires Sound(b) && GrantsForeign(b.ledger) && Held(b.reservations, job, account)
    ensures !HasKey(b.ledger, JobKey(Debit(job))) && !HasKey(b.ledger, JobKey(Refund(job)))
  {
    assert Documented(b, job);
    var n := b.reservations[job].version;
    if Debit(job) in Cycles(job, n - 1) { InCycles(job, n - 1, Debit(job)); }
    UnwrittenIsFresh(b, Debit(job), job);
    NextKeyIsFresh(b, job, Refund(job));
  }

  lemma {:induction false} HoldWithinTotal(b: Books, account: string, job: string)
    requires Sound(b) && Held(b.reservations, job, account)
    ensures account in b.wallets
    ensures b.reservations[job].reserved + Available(b.wallets, account) <= Total(b.lots, account)
  {
    assert Balanced(b, account);
    var holds := ActiveHolds(b.reservations, account);
    assert job in holds;
    SumHoldsSplit(holds, job);
    SumHoldsNonNegative(holds - {job});
  }

  lemma {:induction false} UnbarredCommit(b: Books, account: string, job: string, amount: nat, now: Time,
                                          nulls: NullOrder)
    requires amount > 0 && Held(b.reservations, job, account) && account in b.wallets
    requires !HasKey(b.ledger, JobKey(Debit(job))) && !HasKey(b.ledger, JobKey(Refund(job)))
    requires amount <= b.reservations[job].reserved + Available(b.wallets, account)
    ensures Perform(b, CommitDebit(account, job, amount, now), nulls)
         == var alive := Alive(b.lots, account, now);
            if amount > alive then Fail(b, LotsShort(amount - alive))
            else Outcome(CreditLedger.Settled(b, account, job, amount, now, nulls),
                         Row(JobEntry(account, Debit(job), 0 - amount)))
  {
  }

  /** Once the claim and the wallet guard pass, a commit fails exactly when the debit exceeds
      the unexpired lot credit, and what is missing is lying in expired lots. */
  lemma {:induction false} CommitShortIff(b: Books, account: string, job: string, amount: nat, now: Time,
                                          nulls: NullOrder)
    requires Sound(b) && GrantsForeign(b.ledger) && amount > 0
    requires Held(b.reservations, job, account)
    requires amount <= b.reservations[job].reserved + Available(b.wallets, account)
    ensures var result := Perform(b, CommitDebit(account, job, amount, now), nulls);
            var alive := Alive(b.lots, account, now);
            && (amount > alive ==> result == Fail(b, LotsShort(amount - alive))
                                   && Total(b.lots, account) - alive >= amount - alive)
            && (amount <= alive ==> result == Outcome(CreditLedger.Settled(b, account, job, amount, now, nulls),
                                                      Row(JobEntry(account, Debit(job), 0 - amount))))
  {
    ActiveIsUncommitted(b, account, job);
    HoldWithinTotal(b, account, job);
    UnbarredCommit(b, account, job, amount, now, nulls);
  }

  /** So while nothing of the account has expired, a covered commit always succeeds. */
  lemma {:induction false} CommitSucceedsUnexpired(b: Books, account: string, job: string, amount: nat, now: Time,
                                                   nulls: NullOrder)
    requires Sound(b) && GrantsForeign(b.ledger) && amount > 0
    requires Held(b.reservations, job, account)
    requires amount <= b.reservations[job].reserved + Available(b.wallets, account)
    requires Alive(b.lots, account, now) == Total(b.lots, account)
    ensures Perform(b, CommitDebit(account, job, amount, now), nulls).reply
            == Row(JobEntry(account, Debit(job), 0 - amount))
  {
    CommitShortIff(b, account, job, amount, now, nulls);
  }

  /** Expiry never debits the wallet, so the failure is real: an account whose credit has all
      expired by `now` keeps it reserved, yet no debit against it can be committed. */
  lemma {:induction false} ExpiryStrandsReservation(b: Books, account: string, job: string, amount: nat, now: Time,
                                                    nulls: NullOrder)
    requires Sound(b) && GrantsForeign(b.ledger) && Held(b.reservations, job, account)
    requires 0 < amount <= b.reservations[job].reserved
    requires Alive(b.lots, account, now) == 0
    ensures Reserved(b.wallets, account) >= amount
    ensures Perform(b, CommitDebit(account, job, amount, now), nulls) == Fail(b, LotsShort(amount))
  {
    NothingIsNegative(b, account);
    CommitShortIff(b, account, job, amount, now, nulls);
    assert Balanced(b, account);
    var holds := ActiveHolds(b.reservations, account);
    assert job in holds;
    SumHoldsSplit(holds, job);
    SumHoldsNonNegative(holds - {job});
  }

  lemma {:induction false} GrantAdds(
      b: Books, account: string, amount: nat, source: string, expires: Time, key: string, at: Time, unused: string)
    requires amount > 0 && !HasKey(b.ledger, key)
    ensures var b' := GrantTx(b, account, amount, source, Some(expires), key).books;
            && Available(b'.wallets, account) == Available(b.wallets, account) + amount && account in b'.wallets
            && b'.reservations == b.reservations
            && Alive(b'.lots, account, at) == Alive(b.lots, account, at) + (if expires <= at then 0 else amount)
            && (HasKey(b'.ledger, unused) <==> HasKey(b.ledger, unused) || key == unused)
  {
    SumAppend(b.lots, Lot(account, source, amount, Some(expires)), LiveFor(account, at));
    FindAppend(b.ledger, Entry(account, Grant(source, Some(expires)), amount, key), unused);
  }

  lemma {:induction false} ReserveHolds(b: Books, account: string, job: string, amount: nat)
    requires amount > 0 && b.reservations == map[] && account in b.wallets && Available(b.wallets, account) >= amount
    requires !HasKey(b.ledger, JobKey(Reserve(job, 1)))
    ensures var b' := ReserveTx(b, account, job, amount).books;
            Held(b'.reservations, job, account) && b'.reservations[job].reserved == amount && b'.lots == b.lots
  {
  }

  /** Such a state is reachable: grant, then reserve, then let the grant expire. */
  lemma {:induction false} StrandedIsReachable(account: string, job: string, amount: nat, source: string, key: string,
                                               expiry: Time, nulls: NullOrder)
    requires amount > 0 && Foreign(key)
    ensures var b := Run(Empty, [GrantCredits(account, amount, source, Some(expiry), key),
                                 ReserveCredits(account, job, amount)], nulls);
            && Sound(b) && GrantsForeign(b.ledger) && Held(b.reservations, job, account)
            && b.reservations[job].reserved == amount && Alive(b.lots, account, expiry) == 0
  {
    var grant, reserve := GrantCredits(account, amount, source, Some(expiry), key),
      ReserveCredits(account, job, amount);
    var calls := [grant, reserve];
    EveryRunIsSound(calls, nulls);
    ForeignRun(calls, nulls);
    assert calls == [grant] + [reserve] && [grant] == [] + [grant];
    RunAppend(Empty, [], grant, nulls);
    RunAppend(Empty, [grant], reserve, nulls);
    GrantThenReserve(account, job, amount, source, key, expiry);
  }

  lemma {:induction false} GrantThenReserve(account: string, job: string, amount: nat, source: string, key: string,
                                            expiry: Time)
    requires amount > 0 && Foreign(key)
    ensures var granted := GrantTx(Empty, account, amount, source, Some(expiry), key).books;
            var b := ReserveTx(granted, account, job, amount).books;
            && Held(b.reservations, job, account) && b.reservations[job].reserved == amount
            && Alive(b.lots, account, expiry) == 0
  {
    JobKeyIsNotForeign(Reserve(job, 1));
    GrantAdds(Empty, account, amount, source, expiry, key, expiry, JobKey(Reserve(job, 1)));
    ReserveHolds(GrantTx(Empty, account, amount, source, Some(expiry), key).books, account, job, amount);
  }

  // ---------- Optimal spending over whole runs ----------

  /** What a run does to lots: the grants it makes and the debits it commits. */
  function LotTrace(b: Books, calls: seq<Call>, nulls: NullOrder): seq<LotEvent> {
    if calls == [] then []
    else
      var n := |calls| - 1;
      LotTrace(b, calls[..n], nulls) + LotStep(Run(b, calls[..n], nulls), calls[n], nulls)
  }

  function LotStep(b: Books, c: Call, nulls: NullOrder): seq<LotEvent> {
    if Perform(b, c, nulls).books == b then []
    else if c.GrantCredits? then [Granted(Lot(c.account, c.source, c.amount, c.expires))]
    else if c.CommitDebit? then [Debited(c.account, c.now, c.amount)]
    else []
  }

  lemma {:induction false} EarliestFirstAppend(lots: seq<Lot>, events: seq<LotEvent>, e: LotEvent)
    requires EarliestFirst(lots, events).Some?
    ensures EarliestFirst(lots, events + [e])
            == if Affordable(EarliestFirst(lots, events).value, e)
               then Some(Apply(EarliestFirst(lots, events).value, e, NullsLast)) else None
    decreases |events|
  {
    if events == [] {
      assert events + [e] == [e];
      assert EarliestFirst(Apply(lots, e, NullsLast), []) == Some(Apply(lots, e, NullsLast));
    } else {
      assert (events + [e])[1..] == events[1..] + [e];
      EarliestFirstAppend(Apply(lots, events[0], NullsLast), events[1..], e);
    }
  }

  lemma {:induction false} CallDrawsEarliestFirst(lots: seq<Lot>, events: seq<LotEvent>, before: Books, c: Call,
                                                  after: Books)
    requires EarliestFirst(lots, events) == Some(before.lots) && after == Perform(before, c, NullsLast).books
    ensures EarliestFirst(lots, events + LotStep(before, c, NullsLast)) == Some(after.lots)
  {
    if after == before || !(c.GrantCredits? || c.CommitDebit?) {
      assert events + [] == events;
    } else if c.GrantCredits? {
      EarliestFirstAppend(lots, events, Granted(Lot(c.account, c.source, c.amount, c.expires)));
    } else {
      EarliestFirstAppend(lots, events, Debited(c.account, c.now, c.amount));
    }
  }

  /** The lots of a run are those of earliest-expiry-first on its grants and debits. */
  lemma {:induction false} RunDrawsEarliestFirst(b: Books, calls: seq<Call>)
    ensures EarliestFirst(b.lots, LotTrace(b, calls, NullsLast)) == Some(Run(b, calls, NullsLast).lots)
  {
    if calls != [] {
      var n := |calls| - 1;
      RunDrawsEarliestFirst(b, calls[..n]);
      CallDrawsEarliestFirst(b.lots, LotTrace(b, calls[..n], NullsLast), Run(b, calls[..n], NullsLast), calls[n],
                             Run(b, calls, NullsLast));
    }
  }

  /** Whatever other way of drawing pays the debits of a run whose commits come in time order,
      the ledger has at least as much unexpired credit left at every later time. */
  lemma {:induction false} LedgerSpendsOptimally(calls: seq<Call>, trace: seq<seq<Lot>>, clock: Time)
    requires var events := LotTrace(Empty, calls, NullsLast);
             InTimeOrder(events, clock) && IsPolicyTrace(trace, events) && trace[0] == []
    ensures var events := LotTrace(Empty, calls, NullsLast);
            Dominates(Run(Empty, calls, NullsLast).lots, trace[|events|], LastTime(events, clock))
  {
    RunDrawsEarliestFirst(Empty, calls);
    EarliestFirstIsOptimal([], LotTrace(Empty, calls, NullsLast), trace, clock);
  }

  /** Every lot has an expiry. */
  predicate Expiring(lots: seq<Lot>) {
    forall i :: 0 <= i < |lots| ==> lots[i].expires.Some?
  }

  lemma {:induction false} CommitOrdersAgree(b: Books, c: Call)
    requires Expiring(b.lots) && c.CommitDebit? && c.amount > 0
    ensures Drain(b.lots, c.account, c.now, c.amount, NullsFirst)
            == Drain(b.lots, c.account, c.now, c.amount, NullsLast)
    ensures Expiring(Drain(b.lots, c.account, c.now, c.amount, NullsLast))
  {
    AllExpire(b.lots, c.account);
    OrdersAgree(b.lots, c.account, c.now, c.amount);
    DrainOnlyDraws(b.lots, c.account, c.now, c.amount, NullsLast);
  }

  lemma {:induction false} CallOrdersAgree(b: Books, c: Call)
    requires Expiring(b.lots) && (c.GrantCredits? ==> c.expires.Some?)
    ensures Perform(b, c, NullsFirst) == Perform(b, c, NullsLast) && Expiring(Perform(b, c, NullsLast).books.lots)
  {
    if c.CommitDebit? && c.amount > 0 { CommitOrdersAgree(b, c); }
  }

  /** The MongoDB path spends optimally too as long as every grant carries an expiry, as
      the grants of the billing service do: its runs are then those of the other order. */
  lemma {:induction false} ExpiringGrantsMakeOrdersAgree(calls: seq<Call>)
    requires forall i :: 0 <= i < |calls| && calls[i].GrantCredits? ==> calls[i].expires.Some?
    ensures Run(Empty, calls, NullsFirst) == Run(Empty, calls, NullsLast)
    ensures Expiring(Run(Empty, calls, NullsLast).lots)
  {
    if calls != [] {
      var n := |calls| - 1;
      ExpiringGrantsMakeOrdersAgree(calls[..n]);
      CallOrdersAgree(Run(Empty, calls[..n], NullsLast), calls[n]);
    }
  }

  lemma {:induction false} AllExpire(lots: seq<Lot>, account: string)
    requires forall i :: 0 <= i < |lots| ==> lots[i].expires.Some?
    ensures Permanent(lots, account) == 0
  {
    if Permanent(lots, account) > 0 {
      var i := SomePermanentLot(lots, account);
    }
  }
}
