/** The ledger rows of a job spell out its life, and no insert ever meets a used key. */
module LedgerHistory {
  import opened Wrappers
  import opened CreditLots
  import opened LedgerKeys
  import opened CreditLedger
  import opened LedgerInvariants

  predicate About(kind: Kind, job: string) {
    !kind.Grant? && kind.job == job
  }

  /** The rows about one job, in ledger order. */
  function Rows(ledger: seq<Entry>, job: string): seq<Kind> {
    if ledger == [] then []
    else
      var last := ledger[|ledger| - 1];
      Rows(ledger[..|ledger| - 1], job) + if About(last.kind, job) then [last.kind] else []
  }

  lemma {:induction false} RowsAppend(ledger: seq<Entry>, e: Entry, job: string)
    ensures Rows(ledger + [e], job) == Rows(ledger, job) + if About(e.kind, job) then [e.kind] else []
  {
    assert (ledger + [e])[..|ledger|] == ledger;
  }

  /** (reserve 1, release 1) ... (reserve n, release n) */
  function Cycles(job: string, n: nat): seq<Kind> {
    if n == 0 then [] else Cycles(job, n - 1) + [Reserve(job, n), Release(job, n)]
  }

  /** The rows a reservation in this state must have left. */
  function Life(job: string, reservation: Option<Reservation>): seq<Kind> {
    match reservation
    case None => []
    case Some(r) =>
      if r.version == 0 then []
      else if r.status == Released then Cycles(job, r.version)
      else
        Cycles(job, r.version - 1) + [Reserve(job, r.version)]
        + (if r.status == Committed then [Debit(job)] else [])
        + (if r.status == Committed && r.final.Some? && r.reserved > r.final.value then [Refund(job)] else [])
  }

  predicate AtRest(r: Reservation) {
    && r.version >= 1
    && r.status in {Active, Committed, Released}
    && (r.status == Committed <==> r.final.Some?)
  }

  /** The history of a job is exactly its life, and its status is never half-way. */
  predicate Documented(b: Books, job: string) {
    && (job in b.reservations ==> AtRest(b.reservations[job]))
    && Rows(b.ledger, job) == Life(job, Lookup(b.reservations, job))
  }

  /** Rows are stored under their own keys, and no two rows share one. */
  ghost predicate Keyed(ledger: seq<Entry>) {
    && (forall i :: 0 <= i < |ledger| && !ledger[i].kind.Grant? ==> ledger[i].key == JobKey(ledger[i].kind))
    && (forall i, j :: 0 <= i < j < |ledger| ==> ledger[i].key != ledger[j].key)
  }

  lemma {:induction false} KeyedAppend(ledger: seq<Entry>, e: Entry)
    requires Keyed(ledger) && !HasKey(ledger, e.key)
    requires !e.kind.Grant? ==> e.key == JobKey(e.kind)
    ensures Keyed(ledger + [e])
  {
    assert forall i :: 0 <= i < |ledger| ==> ledger[i] in ledger;
  }

  // ---------- Each transaction documents what it does ----------

  lemma {:induction false} GrantDocuments(b: Books, account: string, amount: int, source: string,
                                          expires: Option<Time>, key: string, job: string)
    requires Documented(b, job) && Keyed(b.ledger)
    ensures var b' := GrantTx(b, account, amount, source, expires, key).books;
            Documented(b', job) && Keyed(b'.ledger)
  {
    if amount > 0 && !HasKey(b.ledger, key) {
      var entry := Entry(account, Grant(source, expires), amount, key);
      RowsAppend(b.ledger, entry, job);
      KeyedAppend(b.ledger, entry);
    }
  }

  lemma {:induction false} ReserveDocuments(b: Books, account: string, which: string, amount: nat, job: string)
    requires Documented(b, job) && Documented(b, which) && Keyed(b.ledger)
    ensures var b' := ReserveTx(b, account, which, amount).books;
            Documented(b', job) && Keyed(b'.ledger)
  {
    var b' := ReserveTx(b, account, which, amount).books;
    if b' != b {
      var entry := JobEntry(account, Reserve(which, b'.reservations[which].version), amount);
      RowsAppend(b.ledger, entry, job);
      KeyedAppend(b.ledger, entry);
    }
  }

  lemma {:induction false} ReleaseDocuments(b: Books, account: string, which: string, job: string)
    requires Documented(b, job) && Documented(b, which) && Keyed(b.ledger)
    ensures var b' := ReleaseTx(b, account, which).books;
            Documented(b', job) && Keyed(b'.ledger)
  {
    var b' := ReleaseTx(b, account, which).books;
    if b' != b {
      var r := b.reservations[which];
      var entry := JobEntry(account, Release(which, r.version), r.reserved);
      RowsAppend(b.ledger, entry, job);
      KeyedAppend(b.ledger, entry);
      assert Cycles(which, r.version) == Cycles(which, r.version - 1) + [Reserve(which, r.version)]
             + [Release(which, r.version)];
    }
  }

  lemma {:induction false} DebitRowsKeyed(ledger: seq<Entry>, account: string, job: string, reserved: nat, amount: nat)
    requires Keyed(ledger) && !HasKey(ledger, JobKey(Debit(job)))
    requires reserved > amount ==> !HasKey(ledger, JobKey(Refund(job)))
    ensures Keyed(ledger + DebitRows(account, job, reserved, amount))
  {
    var debit := JobEntry(account, Debit(job), 0 - amount);
    DebitRowsInOrder(ledger, account, job, reserved, amount);
    KeyedAppend(ledger, debit);
    if reserved > amount {
      var refund := JobEntry(account, Refund(job), reserved - amount);
      JobKeyTag(Debit(job));
      JobKeyTag(Refund(job));
      FindAppend(ledger, debit, refund.key);
      KeyedAppend(ledger + [debit], refund);
    }
  }

  lemma {:induction false} DebitRowsListed(ledger: seq<Entry>, account: string, which: string, reserved: nat,
                                           amount: nat, job: string)
    ensures Rows(ledger + DebitRows(account, which, reserved, amount), job)
            == Rows(ledger, job)
               + (if job == which then [Debit(job)] else [])
               + (if job == which && reserved > amount then [Refund(job)] else [])
  {
    var debit, refund := JobEntry(account, Debit(which), 0 - amount),
      JobEntry(account, Refund(which), reserved - amount);
    DebitRowsInOrder(ledger, account, which, reserved, amount);
    RowsAppend(ledger, debit, job);
    RowsAppend(ledger + [debit], refund, job);
  }

  lemma {:induction false} LifeAfterCommit(job: string, r: Reservation, amount: nat)
    requires r.version >= 1 && r.status == Active
    ensures Life(job, Some(r.(status := Committed, final := Some(amount))))
            == Life(job, Some(r)) + [Debit(job)] + if r.reserved > amount then [Refund(job)] else []
  {
  }

  lemma {:induction false} CommitDocuments(b: Books, account: string, which: string, amount: nat, now: Time,
                                           nulls: NullOrder, job: string)
    requires Documented(b, job) && Documented(b, which) && Keyed(b.ledger)
    ensures var b' := CommitTx(b, account, which, amount, now, nulls).books;
            Documented(b', job) && Keyed(b'.ledger)
  {
    var b' := CommitTx(b, account, which, amount, now, nulls).books;
    if b' != b {
      var r := b.reservations[which];
      assert b' == CreditLedger.Settled(b, account, which, amount, now, nulls);
      DebitRowsKeyed(b.ledger, account, which, r.reserved, amount);
      DebitRowsListed(b.ledger, account, which, r.reserved, amount, job);
      LifeAfterCommit(which, r, amount);
    }
  }

  // ---------- Every run ----------

  /** What holds of the books between transactions. */
  ghost predicate Sound(b: Books) {
    && (forall account :: Balanced(b, account))
    && (forall job :: Documented(b, job))
    && Keyed(b.ledger)
  }

  lemma {:induction false} TransactKeepsSound(b: Books, c: Call, nulls: NullOrder)
    requires Sound(b)
    ensures Sound(Transact(b, c, nulls).books)
  {
    var b' := Transact(b, c, nulls).books;
    forall account ensures Balanced(b', account) {
      TransactKeepsBalance(b, c, nulls, account);
    }
    forall job ensures Documented(b', job) && Keyed(b'.ledger) {
      TransactDocuments(b, c, nulls, job);
    }
    assert Documented(b', "");
  }

  lemma {:induction false} TransactKeepsBalance(b: Books, c: Call, nulls: NullOrder, who: string)
    requires Sound(b)
    ensures Balanced(Transact(b, c, nulls).books, who)
  {
    assert Balanced(b, who) && Balanced(b, c.account);
    match c {
      case GrantCredits(account, amount, source, expires, key) =>
        GrantKeepsBalance(b, account, amount, source, expires, key, who);
      case ReserveCredits(account, job, amount) =>
        if amount > 0 { ReserveKeepsBalance(b, account, job, amount, who); }
      case CommitDebit(account, job, amount, now) =>
        if amount > 0 { CommitKeepsBalance(b, account, job, amount, now, nulls, who); }
      case ReleaseReservation(account, job) => ReleaseKeepsBalance(b, account, job, who);
    }
  }

  lemma {:induction false} TransactDocuments(b: Books, c: Call, nulls: NullOrder, job: string)
    requires Sound(b)
    ensures var b' := Transact(b, c, nulls).books; Documented(b', job) && Keyed(b'.ledger)
  {
    assert Documented(b, job);
    match c {
      case GrantCredits(account, amount, source, expires, key) =>
        GrantDocuments(b, account, amount, source, expires, key, job);
      case ReserveCredits(account, which, amount) =>
        assert Documented(b, which);
        if amount > 0 { ReserveDocuments(b, account, which, amount, job); }
      case CommitDebit(account, which, amount, now) =>
        assert Documented(b, which);
        if amount > 0 { CommitDocuments(b, account, which, amount, now, nulls, job); }
      case ReleaseReservation(account, which) =>
        assert Documented(b, which);
        ReleaseDocuments(b, account, which, job);
    }
  }

  lemma {:induction false} EmptyIsSound()
    ensures Sound(Empty)
  {
    forall account ensures Balanced(Empty, account) {
      assert ActiveHolds(map[], account) == map[];
    }
  }

  /** In every reachable state the ledger replays to the wallets and active holds, wallet
      credit equals lot credit equals grants plus debits, nothing is negative, every job's
      rows are its life, and keys are unique. No hypothesis on the calls is needed. */
  lemma {:induction false} EveryRunIsSound(calls: seq<Call>, nulls: NullOrder)
    ensures Sound(Run(Empty, calls, nulls))
  {
    if calls == [] {
      EmptyIsSound();
    } else {
      var before := calls[..|calls| - 1];
      EveryRunIsSound(before, nulls);
      TransactKeepsSound(Run(Empty, before, nulls), calls[|calls| - 1], nulls);
    }
  }

  lemma {:induction false} NothingIsNegative(b: Books, account: string)
    requires Sound(b)
    ensures Available(b.wallets, account) >= 0 && Reserved(b.wallets, account) >= 0
    ensures Total(b.lots, account) >= Reserved(b.wallets, account)
  {
    assert Balanced(b, account);
    SumHoldsNonNegative(ActiveHolds(b.reservations, account));
  }

  // ---------- Fresh keys ----------

  /** Every grant came with a key of the caller's own, as the billing service makes them. */
  ghost predicate GrantsForeign(ledger: seq<Entry>) {
    forall i :: 0 <= i < |ledger| && ledger[i].kind.Grant? ==> Foreign(ledger[i].key)
  }

  lemma {:induction false} RowsComplete(ledger: seq<Entry>, e: Entry, job: string)
    requires e in ledger && About(e.kind, job)
    ensures e.kind in Rows(ledger, job)
  {
    var n := |ledger| - 1;
    if e != ledger[n] {
      assert e in ledger[..n];
      RowsComplete(ledger[..n], e, job);
    }
  }

  /** A row the job's life does not contain has an unused key. */
  lemma {:induction false} UnwrittenIsFresh(b: Books, kind: Kind, job: string)
    requires Sound(b) && GrantsForeign(b.ledger) && About(kind, job)
    requires kind !in Life(job, Lookup(b.reservations, job))
    ensures !HasKey(b.ledger, JobKey(kind))
  {
    assert Documented(b, job);
    var found := Find(b.ledger, JobKey(kind));
    if found.Some? {
      var i :| 0 <= i < |b.ledger| && b.ledger[i] == found.value;
      JobKeyIsNotForeign(kind);
      JobKeyInjective(found.value.kind, kind);
      RowsComplete(b.ledger, found.value, job);
    }
  }

  lemma {:induction false} InCycles(job: string, n: nat, kind: Kind)
    requires kind in Cycles(job, n)
    ensures (kind.Reserve? || kind.Release?) && kind.version <= n
  {
    if kind in Cycles(job, n - 1) {
      InCycles(job, n - 1, kind);
    }
  }

  /** What a job's life does not contain yet. */
  lemma {:induction false} NextRowIsNew(job: string, reservation: Option<Reservation>, kind: Kind)
    requires reservation.Some? ==> AtRest(reservation.value)
    requires var n := if reservation.Some? then reservation.value.version else 0;
             || kind == Reserve(job, n + 1)
             || (reservation.Some? && reservation.value.status == Active && kind in {Release(job, n), Refund(job)})
    ensures kind !in Life(job, reservation)
  {
    if reservation.Some? {
      var n := reservation.value.version;
      if kind in Cycles(job, n) { InCycles(job, n, kind); }
      if kind in Cycles(job, n - 1) { InCycles(job, n - 1, kind); }
      assert reservation.value.status == Active ==>
          forall k :: k in Life(job, reservation) ==> k in Cycles(job, n - 1) || k == Reserve(job, n);
    }
  }

  lemma {:induction false} NextKeyIsFresh(b: Books, job: string, kind: Kind)
    requires Sound(b) && GrantsForeign(b.ledger)
    requires var n := if job in b.reservations then b.reservations[job].version else 0;
             || kind == Reserve(job, n + 1)
             || (job in b.reservations && b.reservations[job].status == Active
                 && kind in {Release(job, n), Refund(job)})
    ensures !HasKey(b.ledger, JobKey(kind))
  {
    assert Documented(b, job);
    NextRowIsNew(job, Lookup(b.reservations, job), kind);
    UnwrittenIsFresh(b, kind, job);
  }

  /** With foreign grant keys no transaction ever meets a used key, so the branch of
      `_insert_ledger` that returns an existing row hides no state change. */
  lemma {:induction false} KeysAreFresh(b: Books, c: Call, nulls: NullOrder)
    requires Sound(b) && GrantsForeign(b.ledger)
    ensures Transact(b, c, nulls).reply != Failed(DuplicateKey)
  {
    match c {
      case GrantCredits(_, _, _, _, _) =>
      case ReserveCredits(_, job, _) =>
        NextKeyIsFresh(b, job, Reserve(job, if job in b.reservations then b.reservations[job].version + 1 else 1));
      case CommitDebit(account, job, _, _) =>
        if Held(b.reservations, job, account) { NextKeyIsFresh(b, job, Refund(job)); }
      case ReleaseReservation(account, job) =>
        if Held(b.reservations, job, account) { NextKeyIsFresh(b, job, Release(job, b.reservations[job].version)); }
    }
  }

  /** A run whose grants bring foreign keys keeps `GrantsForeign`. */
  predicate ForeignCall(c: Call) {
    c.GrantCredits? ==> Foreign(c.key)
  }

  lemma {:induction false} ForeignRun(calls: seq<Call>, nulls: NullOrder)
    requires forall i :: 0 <= i < |calls| ==> ForeignCall(calls[i])
    ensures GrantsForeign(Run(Empty, calls, nulls).ledger)
  {
    if calls != [] {
      var n := |calls| - 1;
      ForeignRun(calls[..n], nulls);
      CallKeepsForeign(Run(Empty, calls[..n], nulls), calls[n], nulls);
    }
  }

  lemma {:induction false} CallKeepsForeign(b: Books, c: Call, nulls: NullOrder)
    requires GrantsForeign(b.ledger) && ForeignCall(c)
    ensures GrantsForeign(Perform(b, c, nulls).books.ledger)
  {
  }
}
