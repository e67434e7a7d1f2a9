/** The sorted listing of drawable lots that `_consume_lots` walks through. */
module LotOrder {
  import opened Wrappers
  import opened CreditLots

  /** `ids` lists exactly the drawable lots, each before the ones it precedes. */
  ghost predicate IsListing(lots: seq<Lot>, ids: seq<nat>, account: string, now: Time, nulls: NullOrder) {
    && (forall k :: 0 <= k < |ids| ==> ids[k] < |lots| && Drawable(lots[ids[k]], account, now))
    && (forall j: nat :: j < |lots| && Drawable(lots[j], account, now) ==> j in ids)
    && Ordered(lots, ids, nulls)
  }

  ghost predicate Ordered(lots: seq<Lot>, ids: seq<nat>, nulls: NullOrder)
    requires forall k :: 0 <= k < |ids| ==> ids[k] < |lots|
  {
    forall k, l :: 0 <= k < l < |ids| ==> Precedes(lots, ids[k], ids[l], nulls)
  }

  /** Insert a lot newer than all of `ids`, after every lot it does not sort before. */
  function Insert(lots: seq<Lot>, ids: seq<nat>, i: nat, nulls: NullOrder): (r: seq<nat>)
    requires i < |lots| && forall k :: 0 <= k < |ids| ==> ids[k] < i
    requires Ordered(lots, ids, nulls)
    ensures forall j :: j in r <==> j in ids || j == i
    ensures forall k :: 0 <= k < |r| ==> r[k] < |lots|
    ensures Ordered(lots, r, nulls)
  {
    if ids == [] then [i]
    else
      var n := |ids| - 1;
      if SortsBefore(lots[i].expires, lots[ids[n]].expires, nulls) then
        var r := Insert(lots, ids[..n], i, nulls);
        assert forall k :: 0 <= k < |r| ==> r[k] in ids[..n] || r[k] == i;
        r + [ids[n]]
      else ids + [i]
  }

  function Listing(lots: seq<Lot>, upto: nat, account: string, now: Time, nulls: NullOrder): (ids: seq<nat>)
    requires upto <= |lots|
    ensures forall k :: 0 <= k < |ids| ==> ids[k] < upto
    ensures forall j: nat :: j in ids <==> j < upto && Drawable(lots[j], account, now)
    ensures Ordered(lots, ids, nulls)
  {
    if upto == 0 then []
    else
      var ids := Listing(lots, upto - 1, account, now, nulls);
      if Drawable(lots[upto - 1], account, now)
      then
        var r := Insert(lots, ids, upto - 1, nulls);
        assert forall k :: 0 <= k < |r| ==> r[k] in r;
        r
      else ids
  }

  /** `active_lots`: the drawable lots of an account in drawing order. */
  function ActiveLots(lots: seq<Lot>, account: string, now: Time, nulls: NullOrder): (ids: seq<nat>)
    ensures IsListing(lots, ids, account, now, nulls)
  {
    var ids := Listing(lots, |lots|, account, now, nulls);
    assert forall k :: 0 <= k < |ids| ==> ids[k] in ids;
    ids
  }

  /** The head of a listing is the lot `Drain` draws from. */
  lemma {:induction false} HeadIsFirst(lots: seq<Lot>, i: nat, account: string, now: Time, nulls: NullOrder)
    requires IsFirst(lots, i, account, now, nulls)
    ensures First(lots, account, now, nulls) == Some(i)
  {
    var j := First(lots, account, now, nulls).value;
    assert Drawable(lots[j], account, now);
  }
}
