/** `BillingStore`: wallets, lots, ledger and reservations updated in place. */
module BillingStore {
  import opened Wrappers
  import opened CreditLots
  import opened LotDrawing
  import opened LotOrder
  import opened LedgerKeys
  import opened CreditLedger
  import InMemoryCommit

  /** What part of a listing is still undrawn while `_consume_lots` walks it. */
  ghost predicate Walking(listed: seq<Lot>, lots: seq<Lot>, ids: seq<nat>, k: nat, account: string, now: Time,
                          nulls: NullOrder) {
    && |lots| == |listed| && k <= |ids|
    && IsListing(listed, ids, account, now, nulls)
    && (forall j :: 0 <= j < |lots| ==> lots[j] == listed[j].(remaining := lots[j].remaining))
    && (forall l :: k <= l < |ids| ==> lots[ids[l]] == listed[ids[l]])
    && (forall j: nat :: j < |lots| && Drawable(lots[j], account, now) ==> j in ids[k..])
  }

  lemma {:induction false} NextInWalk(listed: seq<Lot>, lots: seq<Lot>, ids: seq<nat>, k: nat, account: string,
                                      now: Time, nulls: NullOrder)
    requires Walking(listed, lots, ids, k, account, now, nulls) && k < |ids|
    ensures First(lots, account, now, nulls) == Some(ids[k])
  {
    forall j: nat | j < |lots| && j != ids[k] && Drawable(lots[j], account, now)
      ensures Precedes(lots, ids[k], j, nulls)
    {
      assert j in ids[k..];
      var l :| 0 <= l < |ids[k..]| && ids[k..][l] == j;
      assert ids[k + l] == j;
      assert Precedes(listed, ids[k], ids[k + l], nulls);
    }
    HeadIsFirst(lots, ids[k], account, now, nulls);
  }

  /** Drawing `remaining` from `lots` takes `short` less than asked and ends in `goal`. */
  ghost predicate OnTheWayTo(lots: seq<Lot>, account: string, now: Time, nulls: NullOrder, remaining: nat,
                             goal: seq<Lot>, short: int) {
    && Drain(lots, account, now, remaining, nulls) == goal
    && remaining - Alive(lots, account, now) == short
  }

  /** One draw of the inner loop is one draw of `Drain`, and leaves the rest of the walk intact. */
  lemma {:induction false} StepInWalk(listed: seq<Lot>, lots: seq<Lot>, ids: seq<nat>, k: nat, account: string,
                                      now: Time, nulls: NullOrder, remaining: nat, take: nat, next: seq<Lot>,
                                      left: nat, goal: seq<Lot>, short: int)
    requires Walking(listed, lots, ids, k, account, now, nulls) && k < |ids| && remaining > 0
    requires take == Min(remaining, lots[ids[k]].remaining) && left == remaining - take
    requires next == DrawFrom(lots, ids[k], take)
    requires OnTheWayTo(lots, account, now, nulls, remaining, goal, short)
    ensures OnTheWayTo(next, account, now, nulls, left, goal, short)
    ensures left > 0 ==> Walking(listed, next, ids, k + 1, account, now, nulls)
  {
    NextInWalk(listed, lots, ids, k, account, now, nulls);
    DrawChangesAlive(lots, ids[k], take, account, now);
    if take < remaining {
      EmptiedInWalk(listed, lots, ids, k, account, now, nulls);
    }
  }

  lemma {:induction false} EmptiedInWalk(listed: seq<Lot>, lots: seq<Lot>, ids: seq<nat>, k: nat, account: string,
                                         now: Time, nulls: NullOrder)
    requires Walking(listed, lots, ids, k, account, now, nulls) && k < |ids|
    ensures Walking(listed, DrawFrom(lots, ids[k], lots[ids[k]].remaining), ids, k + 1, account, now, nulls)
  {
    var next := DrawFrom(lots, ids[k], lots[ids[k]].remaining);
    forall l | k + 1 <= l < |ids| ensures next[ids[l]] == listed[ids[l]] {
      assert Precedes(listed, ids[k], ids[l], nulls);
    }
    forall j: nat | j < |lots| && Drawable(next[j], account, now) ensures j in ids[k + 1..] {
      assert j in ids[k..] && j != ids[k];
      var l :| 0 <= l < |ids[k..]| && ids[k..][l] == j;
      assert ids[k + 1..][l - 1] == j;
    }
  }

  class BillingStore {
    var wallets: map<string, Wallet>
    var lots: seq<Lot>
    var ledger: seq<Entry>
    var reservations: map<string, Reservation>
    const nulls: NullOrder

    constructor (nulls: NullOrder)
      ensures Snapshot() == Empty && this.nulls == nulls
    {
      wallets, lots, ledger, reservations := map[], [], [], map[];
      this.nulls := nulls;
    }

    function Snapshot(): Books
      reads this
    {
      Books(wallets, lots, ledger, reservations)
    }

    /** Abort a transaction: every table is as it was. */
    method Abort(before: Books)
      modifies this
      ensures Snapshot() == before
    {
      wallets, lots, ledger, reservations := before.wallets, before.lots, before.ledger, before.reservations;
    }

    method GrantCredits(account: string, amount: int, source: string, expires: Option<Time>, key: string)
      returns (reply: Reply)
      modifies this
      ensures Outcome(Snapshot(), reply)
           == Perform(old(Snapshot()), CreditLedger.GrantCredits(account, amount, source, expires, key), nulls)
    {
      if amount <= 0 {
        return Failed(NotPositive);
      }
      var existing := Find(ledger, key);
      if existing.Some? {
        return Row(existing.value);
      }
      var entry := Entry(account, Grant(source, expires), amount, key);
      lots := lots + [Lot(account, source, amount, expires)];
      wallets := Credit(wallets, account, amount, 0);
      ledger := ledger + [entry];
      reply := Row(entry);
    }

    method ReserveCredits(account: string, job: string, amount: int) returns (reply: Reply)
      modifies this
      ensures Outcome(Snapshot(), reply)
           == Perform(old(Snapshot()), CreditLedger.ReserveCredits(account, job, amount), nulls)
    {
      if amount <= 0 {
        return Failed(NotPositive);
      }
      var existing := Lookup(reservations, job);
      if existing.Some? && existing.value.status in {Active, Committed} {
        if existing.value.account != account {
          return Failed(OtherAccount);
        }
        return Holding(existing.value, false);
      }
      var before := Snapshot();
      var reservation;
      if job in reservations {
        if reservations[job].account != account {
          return Failed(OtherAccount);
        }
        if reservations[job].status == Reserving {
          return Failed(BeingCreated);
        }
        reservation := reservations[job].(status := Reserving, reserved := amount,
                                          version := reservations[job].version + 1);
      } else {
        reservation := Reservation(account, amount, Reserving, 1, None);
      }
      reservations := reservations[job := reservation];
      if account !in wallets || wallets[account].available < amount {
        Abort(before);
        return Failed(Insufficient(amount, Available(wallets, account)));
      }
      wallets := Credit(wallets, account, 0 - amount, amount);
      reservation := reservation.(status := Active);
      reservations := reservations[job := reservation];
      var entry := JobEntry(account, Reserve(job, reservation.version), amount);
      if HasKey(ledger, entry.key) {
        Abort(before);
        return Failed(DuplicateKey);
      }
      ledger := ledger + [entry];
      reply := Holding(reservation, true);
      assert reservations == before.reservations[job := reservation];
    }

    /** The loops of `_consume_lots`; `short` is what the live lots could not cover. */
    method ConsumeLots(account: string, amount: nat, now: Time) returns (short: nat)
      modifies this`lots
      ensures lots == Drain(old(lots), account, now, amount, nulls)
      ensures short == amount - Min(amount, Alive(old(lots), account, now))
    {
      var remaining: nat := amount;
      ghost var goal := Drain(lots, account, now, amount, nulls);
      ghost var shortfall := amount - Alive(lots, account, now);
      while remaining > 0
        invariant OnTheWayTo(lots, account, now, nulls, remaining, goal, shortfall)
        decreases remaining
      {
        var ids := LotOrder.ActiveLots(lots, account, now, nulls);
        if ids == [] {
          NothingDrawable(lots, account, now);
          break;
        }
        var left := DrawListed(account, ids, now, remaining, goal, shortfall);
        if left == remaining {
          break;
        }
        remaining := left;
      }
      short := remaining;
    }

    /** The inner loop: one pass over a listing, drawing until nothing is left to draw. */
    method DrawListed(account: string, ids: seq<nat>, now: Time, amount: nat, ghost goal: seq<Lot>, ghost short: int)
      returns (left: nat)
      requires amount > 0 && ids != [] && IsListing(lots, ids, account, now, nulls)
      requires OnTheWayTo(lots, account, now, nulls, amount, goal, short)
      modifies this`lots
      ensures left < amount && OnTheWayTo(lots, account, now, nulls, left, goal, short)
    {
      var listed := lots;
      left := amount;
      var k := 0;
      while k < |ids| && left > 0
        invariant k <= |ids| && left <= amount && (k > 0 ==> left < amount) && (k == 0 ==> left == amount)
        invariant |lots| == |listed| && (left > 0 ==> Walking(listed, lots, ids, k, account, now, nulls))
        invariant OnTheWayTo(lots, account, now, nulls, left, goal, short)
      {
        var take: nat := Min(left, listed[ids[k]].remaining);
        if lots[ids[k]].remaining >= take {
          ghost var before, due := lots, left;
          lots := DrawFrom(lots, ids[k], take);
          left := left - take;
          StepInWalk(listed, before, ids, k, account, now, nulls, due, take, lots, left, goal, short);
        }
        k := k + 1;
      }
    }

    method CommitDebit(account: string, job: string, amount: int, now: Time) returns (reply: Reply)
      modifies this
      ensures Outcome(Snapshot(), reply)
           == Perform(old(Snapshot()), CreditLedger.CommitDebit(account, job, amount, now), nulls)
    {
      if amount <= 0 {
        return Failed(NotPositive);
      }
      var duplicate := Find(ledger, JobKey(Debit(job)));
      if duplicate.Some? {
        return Row(duplicate.value);
      }
      if !Held(reservations, job, account) {
        return Failed(ClaimError(Snapshot(), account, job));
      }
      reply := CommitClaimed(account, job, amount, now);
    }

    /** The rest of the commit transaction, once an active reservation has been found. */
    method CommitClaimed(account: string, job: string, amount: nat, now: Time) returns (reply: Reply)
      requires Held(reservations, job, account) && !HasKey(ledger, JobKey(Debit(job)))
      modifies this
      ensures Outcome(Snapshot(), reply) == CommitTx(old(Snapshot()), account, job, amount, now, nulls)
    {
      var before := Snapshot();
      var reservation := reservations[job];
      reservations := reservations[job := reservation.(status := Committing, final := Some(amount))];
      var error := Charge(account, Max(amount - reservation.reserved, 0), amount, now);
      if error.Some? {
        Abort(before);
        CommitBarred(before, account, job, amount, now, nulls);
        return Failed(error.value);
      }
      ghost var charged := wallets;
      var duplicated := Settle(account, job, reservation, amount);
      if duplicated {
        Abort(before);
        CommitBarred(before, account, job, amount, now, nulls);
        return Failed(DuplicateKey);
      }
      ChargedThenSettled(before.wallets, charged, wallets, account, reservation.reserved, amount);
      reply := Row(JobEntry(account, Debit(job), 0 - amount));
      CommitOutcome(before, Snapshot(), account, job, amount, now, nulls);
    }

    /** Give the reservation up, mark it committed and write the ledger rows. */
    method Settle(account: string, job: string, reservation: Reservation, amount: nat) returns (duplicated: bool)
      requires !HasKey(ledger, JobKey(Debit(job)))
      modifies this`wallets, this`reservations, this`ledger
      ensures duplicated <==> reservation.reserved > amount && HasKey(old(ledger), JobKey(Refund(job)))
      ensures !duplicated ==>
                && wallets == Adjust(old(wallets), account, Max(reservation.reserved - amount, 0),
                                     0 - reservation.reserved)
                && reservations == old(reservations)[job := reservation.(status := Committed, final := Some(amount))]
                && ledger == old(ledger) + DebitRows(account, job, reservation.reserved, amount)
    {
      wallets := Adjust(wallets, account, Max(reservation.reserved - amount, 0), 0 - reservation.reserved);
      reservations := reservations[job := reservation.(status := Committed, final := Some(amount))];
      duplicated := InsertDebit(account, job, reservation.reserved, amount);
    }

    /** Take from the wallet what the debit needs beyond the reservation, then draw the lots. */
    method Charge(account: string, extra: nat, amount: nat, now: Time) returns (error: Option<Error>)
      modifies this`wallets, this`lots
      ensures error == ChargeError(old(wallets), old(lots), account, extra, amount, now)
      ensures error.None? || error.value.LotsShort? ==>
                && wallets == Adjust(old(wallets), account, 0 - extra, 0)
                && lots == Drain(old(lots), account, now, amount, nulls)
      ensures error.Some? && !error.value.LotsShort? ==> wallets == old(wallets) && lots == old(lots)
    {
      if extra > 0 {
        if account !in wallets || wallets[account].available < extra {
          return Some(Insufficient(extra, Available(wallets, account)));
        }
        wallets := Adjust(wallets, account, 0 - extra, 0);
      }
      var short := ConsumeLots(account, amount, now);
      error := if short > 0 then Some(LotsShort(short)) else None;
    }

    /** Insert the debit row and, if part of the reservation is left, the refund row. */
    method InsertDebit(account: string, job: string, reserved: nat, amount: nat) returns (duplicated: bool)
      requires !HasKey(ledger, JobKey(Debit(job)))
      modifies this`ledger
      ensures duplicated <==> reserved > amount && HasKey(old(ledger), JobKey(Refund(job)))
      ensures !duplicated ==> ledger == old(ledger) + DebitRows(account, job, reserved, amount)
    {
      var entry := JobEntry(account, Debit(job), 0 - amount);
      FindAppend(ledger, entry, JobKey(Refund(job)));
      JobKeyTag(Debit(job));
      JobKeyTag(Refund(job));
      DebitRowsInOrder(ledger, account, job, reserved, amount);
      ledger := ledger + [entry];
      if reserved > amount {
        var refundEntry := JobEntry(account, Refund(job), reserved - amount);
        if HasKey(ledger, refundEntry.key) {
          return true;
        }
        ledger := ledger + [refundEntry];
      }
      duplicated := false;
    }

    method ReleaseReservation(account: string, job: string) returns (reply: Reply)
      modifies this
      ensures Outcome(Snapshot(), reply)
           == Perform(old(Snapshot()), CreditLedger.ReleaseReservation(account, job), nulls)
    {
      if !Held(reservations, job, account) {
        if job in reservations && reservations[job].account != account {
          return Failed(OtherAccount);
        }
        return Current(Lookup(reservations, job));
      }
      var before := Snapshot();
      var reservation := reservations[job];
      reservations := reservations[job := reservation.(status := Released)];
      wallets := Adjust(wallets, account, reservation.reserved, 0 - reservation.reserved);
      var entry := JobEntry(account, Release(job, reservation.version), reservation.reserved);
      if HasKey(ledger, entry.key) {
        Abort(before);
        return Failed(DuplicateKey);
      }
      ledger := ledger + [entry];
      reply := Current(Lookup(reservations, job));
    }

    /** The in-memory branch of `commit_debit`: no transaction, and on failure only the
        reservation is put back. */
    method CommitDebitInMemory(account: string, job: string, amount: int, now: Time) returns (reply: Reply)
      modifies this
      ensures Outcome(Snapshot(), reply) ==
              if amount <= 0 then Fail(old(Snapshot()), NotPositive)
              else InMemoryCommit.Commit(old(Snapshot()), account, job, amount, now, nulls)
    {
      if amount <= 0 {
        return Failed(NotPositive);
      }
      var duplicate := Find(ledger, JobKey(Debit(job)));
      if duplicate.Some? {
        return Row(duplicate.value);
      }
      if !Held(reservations, job, account) {
        return Failed(ClaimError(Snapshot(), account, job));
      }
      reply := CommitClaimedInMemory(account, job, amount, now);
    }

    method CommitClaimedInMemory(account: string, job: string, amount: nat, now: Time) returns (reply: Reply)
      requires Held(reservations, job, account)
      modifies this
      ensures Outcome(Snapshot(), reply)
           == InMemoryCommit.CommitClaimed(old(Snapshot()), account, job, amount, now, nulls)
    {
      ghost var before := Snapshot();
      var reservation := reservations[job];
      var error := ClaimInMemory(account, job, amount, now);
      if error.Some? {
        return Failed(error.value);
      }
      ghost var charged := wallets;
      FinishInMemory(account, job, reservation, amount);
      assert reservations == before.reservations[job := reservation.(status := Committed, final := Some(amount))];
      ChargedThenSettled(before.wallets, charged, wallets, account, reservation.reserved, amount);
      InMemoryCommit.FinishedOutcome(before, Snapshot(), account, job, amount, now, nulls);
      reply := Row(JobEntry(account, Debit(job), 0 - amount));
    }

    /** Claim the reservation and charge for it; a failed charge only gives the claim back. */
    method ClaimInMemory(account: string, job: string, amount: nat, now: Time) returns (error: Option<Error>)
      requires Held(reservations, job, account)
      modifies this`wallets, this`lots, this`reservations
      ensures error.Some? ==>
                Outcome(Snapshot(), Failed(error.value))
                == InMemoryCommit.CommitClaimed(old(Snapshot()), account, job, amount, now, nulls)
      ensures error.None? ==>
                var reservation := old(reservations)[job];
                var extra := Max(amount - reservation.reserved, 0);
                && ChargeError(old(wallets), old(lots), account, extra, amount, now) == None
                && wallets == Adjust(old(wallets), account, 0 - extra, 0)
                && lots == Drain(old(lots), account, now, amount, nulls)
                && reservations == old(reservations)[job := reservation.(status := Committing, final := Some(amount))]
    {
      ghost var before := Snapshot();
      var reservation := reservations[job];
      reservations := reservations[job := reservation.(status := Committing, final := Some(amount))];
      var extra := Max(amount - reservation.reserved, 0);
      error := ChargeInMemory(account, extra, amount, now);
      if error.Some? {
        reservations := reservations[job := InMemoryCommit.Unclaimed(reservation)];
        assert reservations == before.reservations[job := InMemoryCommit.Unclaimed(reservation)];
        InMemoryCommit.UndoneOutcome(before, Snapshot(), account, job, extra, amount, now, nulls, error.value);
      }
    }

    /** The wallet is read, and so created, before anything extra is charged to it. */
    method ChargeInMemory(account: string, extra: nat, amount: nat, now: Time) returns (error: Option<Error>)
      modifies this`wallets, this`lots
      ensures error == ChargeError(old(wallets), old(lots), account, extra, amount, now)
      ensures if error.None? || error.value.LotsShort? then
                wallets == Adjust(old(wallets), account, 0 - extra, 0)
                && lots == Drain(old(lots), account, now, amount, nulls)
              else wallets == InMemoryCommit.WithWallet(old(wallets), account) && lots == old(lots)
    {
      if extra > 0 {
        wallets := InMemoryCommit.WithWallet(wallets, account);
      }
      error := Charge(account, extra, amount, now);
    }

    /** Give the reservation up, mark it committed and write the rows whose keys are free. */
    method FinishInMemory(account: string, job: string, reservation: Reservation, amount: nat)
      modifies this`wallets, this`reservations, this`ledger
      ensures wallets == Adjust(old(wallets), account, Max(reservation.reserved - amount, 0), 0 - reservation.reserved)
      ensures ledger == InMemoryCommit.InsertDebit(old(ledger), account, job, reservation.reserved, amount)
      ensures reservations == old(reservations)[job := reservation.(status := Committed, final := Some(amount))]
    {
      wallets := Adjust(wallets, account, Max(reservation.reserved - amount, 0), 0 - reservation.reserved);
      reservations := reservations[job := reservation.(status := Committed, final := Some(amount))];
      ledger := InMemoryCommit.InsertDebit(ledger, account, job, reservation.reserved, amount);
    }
  }
}
