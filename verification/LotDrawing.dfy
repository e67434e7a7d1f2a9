/** What a debit leaves: earliest-expiry-first drawing is optimal over whole runs. */
module LotDrawing {
  import opened Wrappers
  import opened CreditLots

  // ---------- One debit ----------

  lemma {:induction false} DrawChangesSum(lots: seq<Lot>, i: nat, take: nat, keep: Lot -> bool)
    requires i < |lots| && take <= lots[i].remaining
    requires keep(lots[i]) == keep(lots[i].(remaining := lots[i].remaining - take))
    ensures Sum(DrawFrom(lots, i, take), keep) == Sum(lots, keep) - if keep(lots[i]) then take else 0
  {
    var drawn := lots[i].(remaining := lots[i].remaining - take);
    SumUpdate(lots, i, drawn, keep);
    assert DrawFrom(lots, i, take) == lots[i := drawn];
    assert Share(drawn, keep) == Share(lots[i], keep) - if keep(lots[i]) then take else 0;
  }

  lemma {:induction false} NothingDrawable(lots: seq<Lot>, account: string, now: Time)
    requires forall j: nat :: j < |lots| ==> !Drawable(lots[j], account, now)
    ensures Alive(lots, account, now) == 0
  {
    if lots != [] {
      var n := |lots| - 1;
      assert !Drawable(lots[n], account, now);
      NothingDrawable(lots[..n], account, now);
    }
  }

  lemma {:induction false} FirstDraw(lots: seq<Lot>, i: nat, take: nat, account: string, now: Time, nulls: NullOrder)
    requires IsFirst(lots, i, account, now, nulls) && take <= lots[i].remaining
    ensures lots[i].remaining <= Alive(lots, account, now)
    ensures Alive(DrawFrom(lots, i, take), account, now) == Alive(lots, account, now) - take
    ensures Total(DrawFrom(lots, i, take), account) == Total(lots, account) - take
  {
    ShareBelowSum(lots, i, LiveFor(account, now));
    DrawChangesSum(lots, i, take, LiveFor(account, now));
    DrawChangesSum(lots, i, take, OwnedBy(account));
  }

  /** A debit takes exactly what it can from the live credit: live and total credit of
      the account fall by the same amount, and nothing else moves. */
  lemma {:induction false} DrainTakes(lots: seq<Lot>, account: string, now: Time, amount: nat, nulls: NullOrder)
    ensures var taken := Min(amount, Alive(lots, account, now));
            && Alive(Drain(lots, account, now, amount, nulls), account, now) == Alive(lots, account, now) - taken
            && Total(Drain(lots, account, now, amount, nulls), account) == Total(lots, account) - taken
    decreases amount
  {
    if amount > 0 {
      if First(lots, account, now, nulls).None? {
        NothingDrawable(lots, account, now);
      } else {
        var i := First(lots, account, now, nulls).value;
        var take := Min(amount, lots[i].remaining);
        var next := DrawFrom(lots, i, take);
        FirstDraw(lots, i, take, account, now, nulls);
        DrainTakes(next, account, now, amount - take, nulls);
      }
    }
  }

  lemma {:induction false} DrainKeepsOthers(lots: seq<Lot>, account: string, now: Time, amount: nat, nulls: NullOrder,
                                            keep: Lot -> bool)
    requires forall lot :: Live(lot, account, now) ==> !keep(lot)
    ensures Sum(Drain(lots, account, now, amount, nulls), keep) == Sum(lots, keep)
    decreases amount
  {
    if amount > 0 && First(lots, account, now, nulls).Some? {
      var i := First(lots, account, now, nulls).value;
      var take := Min(amount, lots[i].remaining);
      DrawChangesSum(lots, i, take, keep);
      DrainKeepsOthers(DrawFrom(lots, i, take), account, now, amount - take, nulls, keep);
    }
  }

  lemma {:induction false} DrainKeepsOtherAccounts(lots: seq<Lot>, account: string, now: Time, amount: nat,
                                                   nulls: NullOrder, other: string, at: Time)
    requires other != account
    ensures Alive(Drain(lots, account, now, amount, nulls), other, at) == Alive(lots, other, at)
    ensures Total(Drain(lots, account, now, amount, nulls), other) == Total(lots, other)
  {
    DrainKeepsOthers(lots, account, now, amount, nulls, LiveFor(other, at));
    DrainKeepsOthers(lots, account, now, amount, nulls, OwnedBy(other));
  }

  /** If the first drawable lot is still live later, so is every other drawable lot. */
  lemma {:induction false} FirstOutlived(lots: seq<Lot>, i: nat, account: string, now: Time, later: Time)
    requires now <= later && IsFirst(lots, i, account, now, NullsLast) && Live(lots[i], account, later)
    ensures Alive(lots, account, later) == Alive(lots, account, now)
  {
    AliveFalls(lots, account, now, later);
    forall j | 0 <= j < |lots|
      ensures Share(lots[j], LiveFor(account, now)) <= Share(lots[j], LiveFor(account, later))
    {
      if Drawable(lots[j], account, now) && j != i {
        assert Precedes(lots, i, j, NullsLast);
      }
    }
    SumMonotone(lots, LiveFor(account, now), lots, LiveFor(account, later));
  }

  /** Drawing `take` from lot `i` lowers the credit unexpired at `at` if the lot is live then. */
  lemma {:induction false} DrawChangesAlive(lots: seq<Lot>, i: nat, take: nat, account: string, at: Time)
    requires i < |lots| && take <= lots[i].remaining
    ensures Alive(DrawFrom(lots, i, take), account, at)
            == Alive(lots, account, at) - if Live(lots[i], account, at) then take else 0
  {
    DrawChangesSum(lots, i, take, LiveFor(account, at));
  }

  /** Earliest-expiry-first leaves, for every later time at once, the most that any
      debit of this size can leave. */
  lemma {:induction false} EarliestFirstLeaves(lots: seq<Lot>, account: string, now: Time, amount: nat, later: Time)
    requires now <= later && amount <= Alive(lots, account, now)
    ensures Alive(Drain(lots, account, now, amount, NullsLast), account, later)
            == Min(Alive(lots, account, later), Alive(lots, account, now) - amount)
    decreases amount
  {
    if amount == 0 {
      AliveFalls(lots, account, now, later);
    } else if First(lots, account, now, NullsLast).None? {
      NothingDrawable(lots, account, now);
    } else {
      var i := First(lots, account, now, NullsLast).value;
      var take := Min(amount, lots[i].remaining);
      var next := DrawFrom(lots, i, take);
      DrawChangesAlive(lots, i, take, account, now);
      DrawChangesAlive(lots, i, take, account, later);
      EarliestFirstLeaves(next, account, now, amount - take, later);
      if Live(lots[i], account, later) {
        FirstOutlived(lots, i, account, now, later);
      }
    }
  }

  // ---------- Whole runs ----------

  datatype LotEvent =
    | Granted(lot: Lot)
    | Debited(account: string, now: Time, amount: nat)

  /** A debit paid in any way at all: `amount` credits leave live lots of the account. */
  ghost predicate Pays(lots: seq<Lot>, lots': seq<Lot>, account: string, now: Time, amount: nat) {
    && |lots'| == |lots|
    && (forall i :: 0 <= i < |lots| ==> OnlyDrawn(lots[i], lots'[i], account, now))
    && Alive(lots', account, now) + amount == Alive(lots, account, now)
  }

  ghost predicate Follows(lots: seq<Lot>, e: LotEvent, lots': seq<Lot>) {
    match e
    case Granted(lot) => lots' == lots + [lot]
    case Debited(account, now, amount) => Pays(lots, lots', account, now, amount)
  }

  /** `trace` is a history in which some drawing policy pays every debit of `events`. */
  ghost predicate IsPolicyTrace(trace: seq<seq<Lot>>, events: seq<LotEvent>) {
    && |trace| == |events| + 1
    && forall i :: 0 <= i < |events| ==> Follows(trace[i], events[i], trace[i + 1])
  }

  /** Debits happen at or after `clock`, in time order. */
  ghost predicate InTimeOrder(events: seq<LotEvent>, clock: Time) {
    events == [] ||
    match events[0]
    case Granted(_) => InTimeOrder(events[1..], clock)
    case Debited(_, now, _) => clock <= now && InTimeOrder(events[1..], now)
  }

  function LastTime(events: seq<LotEvent>, clock: Time): Time {
    if events == [] then clock
    else LastTime(events[1..], if events[0].Debited? then events[0].now else clock)
  }

  function Affordable(lots: seq<Lot>, e: LotEvent): bool {
    e.Debited? ==> e.amount <= Alive(lots, e.account, e.now)
  }

  /** Earliest-expiry-first, `None` once a debit cannot be paid. */
  function EarliestFirst(lots: seq<Lot>, events: seq<LotEvent>): Option<seq<Lot>>
    decreases |events|
  {
    if events == [] then Some(lots)
    else if !Affordable(lots, events[0]) then None
    else EarliestFirst(Apply(lots, events[0], NullsLast), events[1..])
  }

  function Apply(lots: seq<Lot>, e: LotEvent, nulls: NullOrder): seq<Lot> {
    match e
    case Granted(lot) => lots + [lot]
    case Debited(account, now, amount) => Drain(lots, account, now, amount, nulls)
  }

  /** From `clock` on, every account has at least as much unexpired credit in `lots`. */
  ghost predicate Dominates(lots: seq<Lot>, other: seq<Lot>, clock: Time) {
    forall account: string, t: Time :: clock <= t ==> Alive(other, account, t) <= Alive(lots, account, t)
  }

  lemma {:induction false} PaymentLeavesAtMost(lots: seq<Lot>, lots': seq<Lot>, payer: string, now: Time, amount: nat,
                                               account: string, t: Time)
    requires Pays(lots, lots', payer, now, amount) && now <= t
    ensures Alive(lots', account, t) <= Alive(lots, account, t)
    ensures account == payer ==> Alive(lots', account, t) <= Alive(lots, account, now) - amount
  {
    forall i | 0 <= i < |lots|
      ensures Share(lots'[i], LiveFor(account, t)) <= Share(lots[i], LiveFor(account, t))
    {
      assert OnlyDrawn(lots[i], lots'[i], payer, now);
    }
    SumMonotone(lots', LiveFor(account, t), lots, LiveFor(account, t));
    AliveFalls(lots', account, now, t);
  }

  /** One event keeps the advantage of earliest-expiry-first over any policy. */
  lemma {:induction false} StepKeepsDominance(lots: seq<Lot>, other: seq<Lot>, e: LotEvent, other': seq<Lot>,
                                              clock: Time)
    requires Dominates(lots, other, clock) && Follows(other, e, other')
    requires e.Debited? ==> clock <= e.now
    ensures Affordable(lots, e)
    ensures Dominates(Apply(lots, e, NullsLast), other', if e.Debited? then e.now else clock)
  {
    match e
    case Granted(lot) =>
      forall account: string, t: Time | clock <= t
        ensures Alive(other', account, t) <= Alive(lots + [lot], account, t)
      {
        SumAppend(lots, lot, LiveFor(account, t));
        SumAppend(other, lot, LiveFor(account, t));
        assert Alive(other, account, t) <= Alive(lots, account, t);
      }
    case Debited(payer, now, amount) =>
      assert Alive(other, payer, now) <= Alive(lots, payer, now);
      forall account: string, t: Time | now <= t
        ensures Alive(other', account, t) <= Alive(Drain(lots, payer, now, amount, NullsLast), account, t)
      {
        PaymentLeavesAtMost(other, other', payer, now, amount, account, t);
        assert Alive(other, account, t) <= Alive(lots, account, t);
        if account == payer {
          EarliestFirstLeaves(lots, account, now, amount, t);
        } else {
          DrainKeepsOtherAccounts(lots, payer, now, amount, NullsLast, account, t);
        }
      }
  }

  /** Over any run of grants and debits in time order: if some policy pays every debit,
      earliest-expiry-first pays every debit too, and afterwards it has at least as much
      unexpired credit at every later time, for every account. */
  lemma {:induction false} EarliestFirstIsOptimal(lots: seq<Lot>, events: seq<LotEvent>, trace: seq<seq<Lot>>,
                                                  clock: Time)
    requires InTimeOrder(events, clock) && IsPolicyTrace(trace, events)
    requires Dominates(lots, trace[0], clock)
    ensures EarliestFirst(lots, events).Some?
    ensures Dominates(EarliestFirst(lots, events).value, trace[|events|], LastTime(events, clock))
    decreases |events|
  {
    if events != [] {
      assert Follows(trace[0], events[0], trace[1]);
      StepKeepsDominance(lots, trace[0], events[0], trace[1], clock);
      forall i | 0 <= i < |events| - 1 ensures Follows(trace[1..][i], events[1..][i], trace[1..][i + 1]) {
        assert Follows(trace[i + 1], events[i + 1], trace[i + 1 + 1]);
      }
      EarliestFirstIsOptimal(Apply(lots, events[0], NullsLast), events[1..], trace[1..],
                             if events[0].Debited? then events[0].now else clock);
    }
  }

  /** The optimum is attained: earliest-expiry-first is itself a way of paying. */
  lemma {:induction false} EarliestFirstPays(lots: seq<Lot>, account: string, now: Time, amount: nat, nulls: NullOrder)
    requires amount <= Alive(lots, account, now)
    ensures Pays(lots, Drain(lots, account, now, amount, nulls), account, now, amount)
  {
    DrainTakes(lots, account, now, amount, nulls);
    DrainOnlyDraws(lots, account, now, amount, nulls);
  }
}
