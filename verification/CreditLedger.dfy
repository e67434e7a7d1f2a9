/** The books of the credit ledger and what each store operation does to them. */
module CreditLedger {
  import opened Wrappers
  import opened CreditLots
  import opened LedgerKeys

  datatype Wallet = Wallet(available: int, reserved: int)

  datatype Status = Reserving | Active | Committing | Committed | Released

  datatype Reservation = Reservation(account: string, reserved: nat, status: Status, version: nat, final: Option<nat>)

  datatype Entry = Entry(account: string, kind: Kind, amount: int, key: string)

  datatype Books = Books(
    wallets: map<string, Wallet>,
    lots: seq<Lot>,
    ledger: seq<Entry>,
    reservations: map<string, Reservation>)

  datatype Error =
    | NotPositive
    | OtherAccount
    | BeingCreated
    | NotActive
    | Insufficient(required: nat, available: int)
    | LotsShort(missing: nat)
    | DuplicateKey

  datatype Reply =
    | Row(entry: Entry)
    | Holding(reservation: Reservation, created: bool)
    | Current(found: Option<Reservation>)
    | Failed(error: Error)

  datatype Outcome = Outcome(books: Books, reply: Reply)

  datatype Call =
    | GrantCredits(account: string, amount: int, source: string, expires: Option<Time>, key: string)
    | ReserveCredits(account: string, job: string, amount: int)
    | CommitDebit(account: string, job: string, amount: int, now: Time)
    | ReleaseReservation(account: string, job: string)

  const Empty := Books(map[], [], [], map[])

  // ---------- Reading the books ----------

  function Available(wallets: map<string, Wallet>, account: string): int {
    if account in wallets then wallets[account].available else 0
  }

  function Reserved(wallets: map<string, Wallet>, account: string): int {
    if account in wallets then wallets[account].reserved else 0
  }

  function Find(ledger: seq<Entry>, key: string): (r: Option<Entry>)
    ensures r.Some? ==> r.value in ledger && r.value.key == key
    ensures r.None? ==> forall e :: e in ledger ==> e.key != key
  {
    if ledger == [] then None
    else
      var n := |ledger| - 1;
      var earlier := Find(ledger[..n], key);
      assert forall e :: e in ledger ==> e in ledger[..n] || e == ledger[n];
      if earlier.Some? then earlier
      else if ledger[n].key == key then Some(ledger[n]) else None
  }

  lemma {:induction false} FindAppend(ledger: seq<Entry>, e: Entry, key: string)
    ensures Find(ledger + [e], key) ==
            if HasKey(ledger, key) then Find(ledger, key) else if e.key == key then Some(e) else None
  {
    assert (ledger + [e])[..|ledger|] == ledger;
  }

  predicate HasKey(ledger: seq<Entry>, key: string) {
    Find(ledger, key).Some?
  }

  function Lookup(reservations: map<string, Reservation>, job: string): Option<Reservation> {
    if job in reservations then Some(reservations[job]) else None
  }

  predicate Held(reservations: map<string, Reservation>, job: string, account: string) {
    job in reservations && reservations[job].account == account && reservations[job].status == Active
  }

  // ---------- Writing the books ----------

  /** `update_one` with `upsert`: a missing wallet starts at zero. */
  function Credit(wallets: map<string, Wallet>, account: string, available: int, reserved: int): map<string, Wallet> {
    wallets[account := Wallet(Available(wallets, account) + available, Reserved(wallets, account) + reserved)]
  }

  /** `update_one` without `upsert`: a missing wallet stays missing. */
  function Adjust(wallets: map<string, Wallet>, account: string, available: int, reserved: int): map<string, Wallet> {
    if account in wallets then Credit(wallets, account, available, reserved) else wallets
  }

  /** Charging the extra and then giving the reservation up is one adjustment. */
  lemma {:induction false} ChargedThenSettled(
      before: map<string, Wallet>, charged: map<string, Wallet>, after: map<string, Wallet>, account: string,
      reserved: nat, amount: nat)
    requires charged == Adjust(before, account, 0 - Max(amount - reserved, 0), 0)
    requires after == Adjust(charged, account, Max(reserved - amount, 0), 0 - reserved)
    ensures after == Adjust(before, account, reserved - amount, 0 - reserved)
  {
  }

  function JobEntry(account: string, kind: Kind, amount: int): Entry
    requires !kind.Grant?
  {
    Entry(account, kind, amount, JobKey(kind))
  }

  function Fail(books: Books, error: Error): Outcome {
    Outcome(books, Failed(error))
  }

  function GrantTx(b: Books, account: string, amount: int, source: string, expires: Option<Time>,
                   key: string): Outcome
  {
    if amount <= 0 then Fail(b, NotPositive)
    else if HasKey(b.ledger, key) then Outcome(b, Row(Find(b.ledger, key).value))
    else
      var entry := Entry(account, Grant(source, expires), amount, key);
      Outcome(b.(lots := b.lots + [Lot(account, source, amount, expires)],
                 wallets := Credit(b.wallets, account, amount, 0),
                 ledger := b.ledger + [entry]), Row(entry))
  }

  /** The transaction of `reserve_credits`, for a positive amount. */
  function ReserveTx(b: Books, account: string, job: string, amount: nat): Outcome {
    if job in b.reservations && b.reservations[job].account != account then Fail(b, OtherAccount)
    else if job in b.reservations && b.reservations[job].status in {Active, Committed} then
      Outcome(b, Holding(b.reservations[job], false))
    else if job in b.reservations && b.reservations[job].status == Reserving then Fail(b, BeingCreated)
    else if account !in b.wallets || b.wallets[account].available < amount then
      Fail(b, Insufficient(amount, Available(b.wallets, account)))
    else
      var reservation :=
        if job in b.reservations
        then b.reservations[job].(status := Active, reserved := amount, version := b.reservations[job].version + 1)
        else Reservation(account, amount, Active, 1, None);
      var entry := JobEntry(account, Reserve(job, reservation.version), amount);
      if HasKey(b.ledger, entry.key) then Fail(b, DuplicateKey)
      else
        Outcome(b.(reservations := b.reservations[job := reservation],
                   wallets := Credit(b.wallets, account, 0 - amount, amount),
                   ledger := b.ledger + [entry]), Holding(reservation, true))
  }

  /** The read of `reserve_credits` before its transaction, which may already answer. */
  function ReserveRead(b: Books, account: string, job: string): Option<Reply> {
    if job in b.reservations && b.reservations[job].status in {Active, Committed} then
      Some(if b.reservations[job].account != account then Failed(OtherAccount)
           else Holding(b.reservations[job], false))
    else None
  }

  /** Why a reservation cannot be claimed for a commit. */
  function ClaimError(b: Books, account: string, job: string): Error {
    if job in b.reservations && b.reservations[job].account != account then OtherAccount else NotActive
  }

  function DebitRows(account: string, job: string, reserved: nat, amount: nat): seq<Entry> {
    [JobEntry(account, Debit(job), 0 - amount)]
    + if reserved > amount then [JobEntry(account, Refund(job), reserved - amount)] else []
  }

  lemma {:induction false} DebitRowsInOrder(ledger: seq<Entry>, account: string, job: string, reserved: nat,
                                            amount: nat)
    ensures ledger + DebitRows(account, job, reserved, amount) ==
            var debited := ledger + [JobEntry(account, Debit(job), 0 - amount)];
            if reserved > amount then debited + [JobEntry(account, Refund(job), reserved - amount)] else debited
  {
  }

  /** What stops a charge: the wallet, for what it needs beyond the reservation, then the live lots. */
  function ChargeError(wallets: map<string, Wallet>, lots: seq<Lot>, account: string, extra: nat, amount: nat,
                       now: Time): Option<Error>
  {
    if extra > 0 && (account !in wallets || wallets[account].available < extra) then
      Some(Insufficient(extra, Available(wallets, account)))
    else if Alive(lots, account, now) < amount then Some(LotsShort(amount - Alive(lots, account, now)))
    else None
  }

  /** What stops the commit of an active reservation, in the order the source checks it. */
  function CommitBar(b: Books, account: string, job: string, amount: nat, now: Time): Option<Error>
    requires Held(b.reservations, job, account)
  {
    var reserved := b.reservations[job].reserved;
    var error := ChargeError(b.wallets, b.lots, account, Max(amount - reserved, 0), amount, now);
    if error.Some? then error
    else if reserved > amount && HasKey(b.ledger, JobKey(Refund(job))) then Some(DuplicateKey)
    else None
  }

  /** The books after a commit that nothing stops. */
  function Settled(b: Books, account: string, job: string, amount: nat, now: Time, nulls: NullOrder): Books
    requires Held(b.reservations, job, account)
  {
    var reservation := b.reservations[job];
    Books(Adjust(b.wallets, account, reservation.reserved - amount, 0 - reservation.reserved),
          Drain(b.lots, account, now, amount, nulls),
          b.ledger + DebitRows(account, job, reservation.reserved, amount),
          b.reservations[job := reservation.(status := Committed, final := Some(amount))])
  }

  /** The transaction of `commit_debit`, for a positive amount. */
  function CommitTx(b: Books, account: string, job: string, amount: nat, now: Time, nulls: NullOrder): Outcome {
    if HasKey(b.ledger, JobKey(Debit(job))) then Outcome(b, Row(Find(b.ledger, JobKey(Debit(job))).value))
    else if !Held(b.reservations, job, account) then Fail(b, ClaimError(b, account, job))
    else
      match CommitBar(b, account, job, amount, now)
      case Some(error) => Fail(b, error)
      case None => Outcome(Settled(b, account, job, amount, now, nulls), Row(JobEntry(account, Debit(job), 0 - amount)))
  }

  /** A commit that nothing stops ends in any books that agree with `Settled` table by table. */
  lemma {:induction false} CommitOutcome(b: Books, b': Books, account: string, job: string, amount: nat, now: Time,
                                         nulls: NullOrder)
    requires !HasKey(b.ledger, JobKey(Debit(job))) && Held(b.reservations, job, account)
    requires CommitBar(b, account, job, amount, now) == None
    requires var r := b.reservations[job];
             && b'.wallets == Adjust(b.wallets, account, r.reserved - amount, 0 - r.reserved)
             && b'.lots == Drain(b.lots, account, now, amount, nulls)
             && b'.ledger == b.ledger + DebitRows(account, job, r.reserved, amount)
             && b'.reservations == b.reservations[job := r.(status := Committed, final := Some(amount))]
    ensures CommitTx(b, account, job, amount, now, nulls) == Outcome(b', Row(JobEntry(account, Debit(job), 0 - amount)))
  {
  }

  lemma {:induction false} CommitBarred(b: Books, account: string, job: string, amount: nat, now: Time,
                                        nulls: NullOrder)
    requires !HasKey(b.ledger, JobKey(Debit(job))) && Held(b.reservations, job, account)
    requires CommitBar(b, account, job, amount, now).Some?
    ensures CommitTx(b, account, job, amount, now, nulls) == Fail(b, CommitBar(b, account, job, amount, now).value)
  {
  }

  function CommitRead(b: Books, job: string): Option<Reply> {
    if HasKey(b.ledger, JobKey(Debit(job))) then Some(Row(Find(b.ledger, JobKey(Debit(job))).value)) else None
  }

  function ReleaseTx(b: Books, account: string, job: string): Outcome {
    if !Held(b.reservations, job, account) then
      if job in b.reservations && b.reservations[job].account != account then Fail(b, OtherAccount)
      else Outcome(b, Current(Lookup(b.reservations, job)))
    else
      var reservation := b.reservations[job];
      var entry := JobEntry(account, Release(job, reservation.version), reservation.reserved);
      var released := reservation.(status := Released);
      if HasKey(b.ledger, entry.key) then Fail(b, DuplicateKey)
      else
        Outcome(b.(reservations := b.reservations[job := released],
                   wallets := Adjust(b.wallets, account, reservation.reserved, 0 - reservation.reserved),
                   ledger := b.ledger + [entry]), Current(Some(released)))
  }

  /** A whole call, run alone: argument check, early read, transaction. */
  function Perform(b: Books, c: Call, nulls: NullOrder): Outcome {
    match Read(b, c)
    case Some(reply) => Outcome(b, reply)
    case None => Transact(b, c, nulls)
  }

  /** What a call can answer before opening its transaction. */
  function Read(b: Books, c: Call): Option<Reply> {
    if !c.ReleaseReservation? && c.amount <= 0 then Some(Failed(NotPositive))
    else
      match c
      case ReserveCredits(account, job, _) => ReserveRead(b, account, job)
      case CommitDebit(_, job, _, _) => CommitRead(b, job)
      case _ => None
  }

  /** The transaction of a call whose amount is positive. */
  function Transact(b: Books, c: Call, nulls: NullOrder): Outcome {
    match c
    case GrantCredits(account, amount, source, expires, key) => GrantTx(b, account, amount, source, expires, key)
    case ReserveCredits(account, job, amount) =>
      if amount <= 0 then Fail(b, NotPositive) else ReserveTx(b, account, job, amount)
    case CommitDebit(account, job, amount, now) =>
      if amount <= 0 then Fail(b, NotPositive) else CommitTx(b, account, job, amount, now, nulls)
    case ReleaseReservation(account, job) => ReleaseTx(b, account, job)
  }

  /** The books after a sequence of calls. */
  function Run(b: Books, calls: seq<Call>, nulls: NullOrder): Books {
    if calls == [] then b
    else Perform(Run(b, calls[..|calls| - 1], nulls), calls[|calls| - 1], nulls).books
  }
}
