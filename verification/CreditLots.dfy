/** Credit lots and the order in which debits draw from them. */
module CreditLots {
  import opened Wrappers

  type Time = int

  /** One row of `credit_lots`; a lot's id is its position in the sequence of lots. */
  datatype Lot = Lot(account: string, source: string, remaining: nat, expires: Option<Time>)

  /** Where the sort on `expires_at` puts lots without an expiry: the in-memory
      sort puts them last, the MongoDB sort puts null first. */
  datatype NullOrder = NullsLast | NullsFirst

  predicate Expired(lot: Lot, now: Time) {
    lot.expires.Some? && lot.expires.value <= now
  }

  predicate Live(lot: Lot, account: string, now: Time) {
    lot.account == account && !Expired(lot, now)
  }

  predicate Drawable(lot: Lot, account: string, now: Time) {
    Live(lot, account, now) && lot.remaining > 0
  }

  // ---------- Sums over lots ----------

  function Sum(lots: seq<Lot>, keep: Lot -> bool): nat {
    if lots == [] then 0
    else
      var last := lots[|lots| - 1];
      Sum(lots[..|lots| - 1], keep) + if keep(last) then last.remaining else 0
  }

  function LiveFor(account: string, now: Time): Lot -> bool {
    lot => Live(lot, account, now)
  }

  function OwnedBy(account: string): Lot -> bool {
    (lot: Lot) => lot.account == account
  }

  /** Credit of `account` that has not expired at `now`. */
  function Alive(lots: seq<Lot>, account: string, now: Time): nat {
    Sum(lots, LiveFor(account, now))
  }

  /** All credit of `account`, expired lots included. */
  function Total(lots: seq<Lot>, account: string): nat {
    Sum(lots, OwnedBy(account))
  }

  function Share(lot: Lot, keep: Lot -> bool): nat {
    if keep(lot) then lot.remaining else 0
  }

  lemma {:induction false} SumAppend(lots: seq<Lot>, lot: Lot, keep: Lot -> bool)
    ensures Sum(lots + [lot], keep) == Sum(lots, keep) + Share(lot, keep)
  {
    assert (lots + [lot])[..|lots|] == lots;
  }

  lemma {:induction false} SumUpdate(lots: seq<Lot>, i: nat, lot: Lot, keep: Lot -> bool)
    requires i < |lots|
    ensures Sum(lots[i := lot], keep) == Sum(lots, keep) - Share(lots[i], keep) + Share(lot, keep)
  {
    var n := |lots| - 1;
    if i == n {
      assert lots[i := lot][..n] == lots[..n];
    } else {
      assert lots[i := lot][..n] == lots[..n][i := lot];
      SumUpdate(lots[..n], i, lot, keep);
    }
  }

  lemma {:induction false} ShareBelowSum(lots: seq<Lot>, i: nat, keep: Lot -> bool)
    requires i < |lots|
    ensures Share(lots[i], keep) <= Sum(lots, keep)
  {
    var n := |lots| - 1;
    if i < n {
      ShareBelowSum(lots[..n], i, keep);
    }
  }

  /** Sums over pointwise smaller shares are smaller. */
  lemma {:induction false} SumMonotone(lots: seq<Lot>, keep: Lot -> bool, lots': seq<Lot>, keep': Lot -> bool)
    requires |lots| == |lots'|
    requires forall i :: 0 <= i < |lots| ==> Share(lots[i], keep) <= Share(lots'[i], keep')
    ensures Sum(lots, keep) <= Sum(lots', keep')
  {
    if lots != [] {
      var n := |lots| - 1;
      assert Share(lots[n], keep) <= Share(lots'[n], keep');
      forall i | 0 <= i < n ensures Share(lots[..n][i], keep) <= Share(lots'[..n][i], keep') {
        assert Share(lots[i], keep) <= Share(lots'[i], keep');
      }
      SumMonotone(lots[..n], keep, lots'[..n], keep');
    }
  }

  lemma {:induction false} AliveFalls(lots: seq<Lot>, account: string, now: Time, later: Time)
    requires now <= later
    ensures Alive(lots, account, later) <= Alive(lots, account, now)
  {
    SumMonotone(lots, LiveFor(account, later), lots, LiveFor(account, now));
  }

  // ---------- The lot drawn from next ----------

  /** `x` sorts strictly before `y` on `expires_at`. */
  predicate SortsBefore(x: Option<Time>, y: Option<Time>, nulls: NullOrder) {
    match nulls
    case NullsLast => x.Some? && (y.None? || x.value < y.value)
    case NullsFirst => y.Some? && (x.None? || x.value < y.value)
  }

  /** Lot `i` comes before lot `j` in a stable sort on `expires_at`. */
  predicate Precedes(lots: seq<Lot>, i: nat, j: nat, nulls: NullOrder)
    requires i < |lots| && j < |lots|
  {
    SortsBefore(lots[i].expires, lots[j].expires, nulls)
    || (i < j && !SortsBefore(lots[j].expires, lots[i].expires, nulls))
  }

  ghost predicate IsFirst(lots: seq<Lot>, i: nat, account: string, now: Time, nulls: NullOrder) {
    && i < |lots|
    && Drawable(lots[i], account, now)
    && forall j: nat :: j < |lots| && j != i && Drawable(lots[j], account, now) ==> Precedes(lots, i, j, nulls)
  }

  function First(lots: seq<Lot>, account: string, now: Time, nulls: NullOrder): (r: Option<nat>)
    ensures r.None? ==> forall j: nat :: j < |lots| ==> !Drawable(lots[j], account, now)
    ensures r.Some? ==> IsFirst(lots, r.value, account, now, nulls)
  {
    if lots == [] then None
    else
      var n := |lots| - 1;
      var before := First(lots[..n], account, now, nulls);
      assert forall j: nat :: j < n ==> lots[..n][j] == lots[j];
      if !Drawable(lots[n], account, now) then before
      else if before.None? then Some(n)
      else
        assert forall j: nat :: j < n && j != before.value && Drawable(lots[..n][j], account, now) ==>
          Precedes(lots[..n], before.value, j, nulls);
        assert forall j: nat :: j < n && j != before.value ==>
          Precedes(lots[..n], before.value, j, nulls) == Precedes(lots, before.value, j, nulls);
        if SortsBefore(lots[n].expires, lots[before.value].expires, nulls) then
        Some(n) else before
  }

  /** Draw `amount` credits, always from the first drawable lot, until the amount or
      the live credit is used up. */
  function Drain(lots: seq<Lot>, account: string, now: Time, amount: nat, nulls: NullOrder): seq<Lot>
    decreases amount
  {
    if amount == 0 then lots
    else
      match First(lots, account, now, nulls)
      case None => lots
      case Some(i) =>
        var take := Min(amount, lots[i].remaining);
        Drain(DrawFrom(lots, i, take), account, now, amount - take, nulls)
  }

  function DrawFrom(lots: seq<Lot>, i: nat, take: nat): seq<Lot>
    requires i < |lots| && take <= lots[i].remaining
  {
    lots[i := lots[i].(remaining := lots[i].remaining - take)]
  }

  /** A debit of `account` at `now` may only lower the remaining credit of its live lots. */
  predicate OnlyDrawn(lot: Lot, lot': Lot, account: string, now: Time) {
    && lot' == lot.(remaining := lot'.remaining)
    && lot'.remaining <= lot.remaining
    && (!Live(lot, account, now) ==> lot' == lot)
  }

  lemma {:induction false} DrainOnlyDraws(lots: seq<Lot>, account: string, now: Time, amount: nat, nulls: NullOrder)
    ensures var drained := Drain(lots, account, now, amount, nulls);
            |drained| == |lots| && forall i :: 0 <= i < |lots| ==> OnlyDrawn(lots[i], drained[i], account, now)
    decreases amount
  {
    if amount > 0 && First(lots, account, now, nulls).Some? {
      var i := First(lots, account, now, nulls).value;
      var take := Min(amount, lots[i].remaining);
      DrainOnlyDraws(DrawFrom(lots, i, take), account, now, amount - take, nulls);
    }
  }
}
