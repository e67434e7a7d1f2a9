/** The MongoDB sort puts lots without an expiry first. This module states exactly when
    a debit drawn in that order is as good as earliest-expiry-first. */
module NullFirstDrawing {
  import opened Wrappers
  import opened CreditLots
  import opened LotDrawing

  function NeverExpiring(account: string): Lot -> bool {
    (lot: Lot) => lot.account == account && lot.expires.None?
  }

  /** Credit of the account that never expires. */
  function Permanent(lots: seq<Lot>, account: string): nat {
    Sum(lots, NeverExpiring(account))
  }

  /** The debit in the MongoDB order leaves the optimum at every later time. */
  ghost predicate LeavesOptimum(lots: seq<Lot>, account: string, now: Time, amount: nat) {
    forall later :: now <= later ==>
      Alive(Drain(lots, account, now, amount, NullsFirst), account, later)
      == Alive(Drain(lots, account, now, amount, NullsLast), account, later)
  }

  lemma {:induction false} PermanentIsAlive(lots: seq<Lot>, account: string, at: Time)
    ensures Permanent(lots, account) <= Alive(lots, account, at)
  {
    SumMonotone(lots, NeverExpiring(account), lots, LiveFor(account, at));
  }

  function Horizon(lots: seq<Lot>, from: Time): (end: Time)
    ensures from <= end
    ensures forall i :: 0 <= i < |lots| && lots[i].expires.Some? ==> lots[i].expires.value <= end
  {
    if lots == [] then from
    else
      var n := |lots| - 1;
      var end := Horizon(lots[..n], from);
      assert forall i :: 0 <= i < n ==> lots[..n][i] == lots[i];
      if lots[n].expires.Some? then Max(end, lots[n].expires.value) else end
  }

  /** Past every expiry only permanent credit is left. */
  lemma {:induction false} AliveAtHorizon(lots: seq<Lot>, account: string, end: Time)
    requires forall i :: 0 <= i < |lots| && lots[i].expires.Some? ==> lots[i].expires.value <= end
    ensures Alive(lots, account, end) == Permanent(lots, account)
  {
    PermanentIsAlive(lots, account, end);
    SumMonotone(lots, LiveFor(account, end), lots, NeverExpiring(account));
  }

  lemma {:induction false} NoPermanentLot(lots: seq<Lot>, account: string, i: nat)
    requires i < |lots| && lots[i].account == account && lots[i].expires.None? && lots[i].remaining > 0
    ensures Permanent(lots, account) > 0
  {
    ShareBelowSum(lots, i, NeverExpiring(account));
  }

  lemma {:induction false} SomePermanentLot(lots: seq<Lot>, account: string) returns (i: nat)
    requires Permanent(lots, account) > 0
    ensures i < |lots| && lots[i].account == account && lots[i].expires.None? && lots[i].remaining > 0
  {
    var n := |lots| - 1;
    if NeverExpiring(account)(lots[n]) && lots[n].remaining > 0 {
      i := n;
    } else {
      i := SomePermanentLot(lots[..n], account);
    }
  }

  /** While permanent credit is left, the MongoDB order draws from a lot without an expiry. */
  lemma {:induction false} PermanentComesFirst(lots: seq<Lot>, account: string, now: Time)
    requires Permanent(lots, account) > 0
    ensures var first := First(lots, account, now, NullsFirst);
            first.Some? && NeverExpiring(account)(lots[first.value])
  {
    var j := SomePermanentLot(lots, account);
    assert Drawable(lots[j], account, now);
    var i := First(lots, account, now, NullsFirst).value;
    assert j != i ==> Precedes(lots, i, j, NullsFirst);
  }

  lemma {:induction false} DrawChangesPermanent(lots: seq<Lot>, i: nat, take: nat, account: string)
    requires i < |lots| && take <= lots[i].remaining
    ensures Permanent(DrawFrom(lots, i, take), account)
            == Permanent(lots, account) - if NeverExpiring(account)(lots[i]) then take else 0
    ensures NeverExpiring(account)(lots[i]) ==> lots[i].remaining <= Permanent(lots, account)
  {
    DrawChangesSum(lots, i, take, NeverExpiring(account));
    ShareBelowSum(lots, i, NeverExpiring(account));
  }

  /** In the MongoDB order permanent credit is spent before anything else. */
  lemma {:induction false} PermanentSpentFirst(lots: seq<Lot>, account: string, now: Time, amount: nat)
    ensures Permanent(Drain(lots, account, now, amount, NullsFirst), account)
            == Permanent(lots, account) - Min(amount, Permanent(lots, account))
    decreases amount
  {
    if amount > 0 {
      if Permanent(lots, account) > 0 {
        PermanentComesFirst(lots, account, now);
      }
      var first := First(lots, account, now, NullsFirst);
      if first.Some? {
        var take := Min(amount, lots[first.value].remaining);
        var next := DrawFrom(lots, first.value, take);
        DrawChangesPermanent(lots, first.value, take, account);
        PermanentSpentFirst(next, account, now, amount - take);
      }
    }
  }

  /** Without permanent credit the two orders pick the same lots. */
  lemma {:induction false} OrdersAgree(lots: seq<Lot>, account: string, now: Time, amount: nat)
    requires Permanent(lots, account) == 0
    ensures Drain(lots, account, now, amount, NullsFirst) == Drain(lots, account, now, amount, NullsLast)
    decreases amount
  {
    if amount > 0 {
      var first, last := First(lots, account, now, NullsFirst), First(lots, account, now, NullsLast);
      if first.Some? && last.Some? {
        SameFirst(lots, account, now, first.value, last.value);
        var take := Min(amount, lots[first.value].remaining);
        DrawChangesSum(lots, first.value, take, NeverExpiring(account));
        OrdersAgree(DrawFrom(lots, first.value, take), account, now, amount - take);
      }
    }
  }

  lemma {:induction false} SameFirst(lots: seq<Lot>, account: string, now: Time, i: nat, j: nat)
    requires Permanent(lots, account) == 0
    requires IsFirst(lots, i, account, now, NullsFirst) && IsFirst(lots, j, account, now, NullsLast)
    ensures i == j
  {
    if i != j {
      assert Precedes(lots, i, j, NullsFirst) && Precedes(lots, j, i, NullsLast);
      if lots[i].expires.None? { NoPermanentLot(lots, account, i); }
      if lots[j].expires.None? { NoPermanentLot(lots, account, j); }
    }
  }

  /** The MongoDB order is as good as earliest-expiry-first exactly when the debit does not
      have to choose: nothing to draw, no live credit of one of the two sorts, or all of it drawn. */
  lemma {:induction false} NullsFirstOptimalIff(lots: seq<Lot>, account: string, now: Time, amount: nat)
    requires amount <= Alive(lots, account, now)
    ensures LeavesOptimum(lots, account, now, amount) <==>
            (amount == 0 || amount == Alive(lots, account, now)
             || Permanent(lots, account) == 0 || Permanent(lots, account) == Alive(lots, account, now))
  {
    var first := Drain(lots, account, now, amount, NullsFirst);
    PermanentSpentFirst(lots, account, now, amount);
    DrainTakes(lots, account, now, amount, NullsFirst);
    PermanentIsAlive(lots, account, now);
    if Permanent(lots, account) == 0 {
      OrdersAgree(lots, account, now, amount);
    }
    forall later | now <= later
      ensures amount == Alive(lots, account, now) || Permanent(lots, account) == Alive(lots, account, now)
              ==> Alive(first, account, later) == Alive(Drain(lots, account, now, amount, NullsLast), account, later)
    {
      EarliestFirstLeaves(lots, account, now, amount, later);
      AliveFalls(first, account, now, later);
      AliveFalls(lots, account, now, later);
      PermanentIsAlive(lots, account, later);
      PermanentIsAlive(first, account, later);
    }
    var end := Horizon(lots, now);
    AliveAtHorizon(lots, account, end);
    DrainOnlyDraws(lots, account, now, amount, NullsFirst);
    assert forall i :: 0 <= i < |lots| ==> OnlyDrawn(lots[i], first[i], account, now);
    AliveAtHorizon(first, account, end);
    EarliestFirstLeaves(lots, account, now, amount, end);
  }

  lemma {:induction false} SumOfTwo(x: Lot, y: Lot, keep: Lot -> bool)
    ensures Sum([x, y], keep) == Share(x, keep) + Share(y, keep)
  {
    assert [x] == [] + [x] && [x, y] == [x] + [y];
    SumAppend([], x, keep);
    SumAppend([x], y, keep);
  }

  /** Given a permanent lot and one that expires at `end`, a debit in the MongoDB order spends
      the permanent credit and lets the other expire: the whole debit is lost at `end`. */
  lemma {:induction false} NullsFirstWastes(gift: Lot, plan: Lot, end: Time, amount: nat)
    requires gift.account == plan.account && gift.expires == None && plan.expires == Some(end)
    requires amount <= gift.remaining && amount <= plan.remaining
    ensures var lots, now := [gift, plan], end - 1;
            Alive(Drain(lots, gift.account, now, amount, NullsFirst), gift.account, end) + amount
            == Alive(Drain(lots, gift.account, now, amount, NullsLast), gift.account, end)
  {
    var lots, account, now := [gift, plan], gift.account, end - 1;
    SumOfTwo(gift, plan, LiveFor(account, now));
    SumOfTwo(gift, plan, LiveFor(account, end));
    SumOfTwo(gift, plan, NeverExpiring(account));
    EarliestFirstLeaves(lots, account, now, amount, end);
    PermanentSpentFirst(lots, account, now, amount);
    var drained := Drain(lots, account, now, amount, NullsFirst);
    DrainOnlyDraws(lots, account, now, amount, NullsFirst);
    assert forall i :: 0 <= i < |lots| ==> OnlyDrawn(lots[i], drained[i], account, now);
    AliveAtHorizon(drained, account, end);
  }
}
