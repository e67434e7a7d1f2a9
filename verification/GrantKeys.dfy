/** The idempotency keys the billing service gives to grants, and when two grants share one. */
module GrantKeys {
  import opened CreditLots
  import opened LedgerKeys
  import opened CreditLedger
  import opened LedgerGuarantees

  /** What a grant is given for. */
  datatype Reason =
    | Trial(owner: string)
    | Pro(subscription: string, payment: string)
    | Topup(order: string, payment: string)

  function GrantKey(r: Reason): string {
    match r
    case Trial(owner) => "free_trial:" + owner
    case Pro(subscription, payment) => "pro_grant:" + (subscription + ":" + payment)
    case Topup(order, payment) => "topup_grant:" + (order + ":" + payment)
  }

  /** The ids `x'` and `y'` are `x` and `y` with the colon between them moved to the right. */
  predicate Shifted(x: string, y: string, x': string, y': string) {
    |x| < |x'| && x'[..|x|] == x && x'[|x|] == ':' && y == x'[|x| + 1..] + ":" + y'
  }

  lemma {:induction false} ShiftedJoin(x: string, y: string, x': string, y': string)
    requires Shifted(x, y, x', y')
    ensures x + ":" + y == x' + ":" + y'
  {
    assert x' == x + ":" + x'[|x| + 1..];
    assert x + ":" + (x'[|x| + 1..] + ":" + y') == x + ":" + x'[|x| + 1..] + ":" + y';
  }

  lemma {:induction false} LongerIsShifted(x: string, y: string, x': string, y': string)
    requires x + ":" + y == x' + ":" + y' && |x| < |x'|
    ensures Shifted(x, y, x', y')
  {
    var s := x + ":" + y;
    assert x == s[..|x|] == x'[..|x|];
    assert x'[|x|] == s[|x|] == ':';
    assert y == s[|x| + 1..] == (x' + ":" + y')[|x| + 1..];
  }

  /** Two pairs of ids are joined alike exactly when they are the same or the colon is moved. */
  lemma {:induction false} JoinedIff(x: string, y: string, x': string, y': string)
    ensures x + ":" + y == x' + ":" + y' <==> (x == x' && y == y') || Shifted(x, y, x', y') || Shifted(x', y', x, y)
  {
    if x + ":" + y == x' + ":" + y' {
      if |x| < |x'| {
        LongerIsShifted(x, y, x', y');
      } else if |x'| < |x| {
        LongerIsShifted(x', y', x, y);
      } else {
        SameLength(x, y, x', y');
      }
    }
    if Shifted(x, y, x', y') { ShiftedJoin(x, y, x', y'); }
    if Shifted(x', y', x, y) { ShiftedJoin(x', y', x, y); }
  }

  lemma {:induction false} SameLength(x: string, y: string, x': string, y': string)
    requires x + ":" + y == x' + ":" + y' && |x| == |x'|
    ensures x == x' && y == y'
  {
    var s := x + ":" + y;
    assert x == s[..|x|] == x' && y == s[|x| + 1..] == y';
  }

  /** The two reasons are of the same sort, and the colon between their ids is moved. */
  predicate Confused(r: Reason, r': Reason) {
    match r
    case Trial(_) => false
    case Pro(subscription, payment) => r'.Pro? && Shifted(subscription, payment, r'.subscription, r'.payment)
    case Topup(order, payment) => r'.Topup? && Shifted(order, payment, r'.order, r'.payment)
  }

  lemma {:induction false} SortsDiffer(r: Reason, r': Reason)
    requires GrantKey(r) == GrantKey(r')
    ensures r.Trial? == r'.Trial? && r.Pro? == r'.Pro? && r.Topup? == r'.Topup?
  {
    assert GrantKey(r)[0] == if r.Trial? then 'f' else if r.Pro? then 'p' else 't';
    assert GrantKey(r')[0] == if r'.Trial? then 'f' else if r'.Pro? then 'p' else 't';
  }

  lemma {:induction false} ProIff(r: Reason, r': Reason)
    requires r.Pro? && r'.Pro?
    ensures GrantKey(r) == GrantKey(r') <==> r == r' || Confused(r, r') || Confused(r', r)
  {
    JoinedIff(r.subscription, r.payment, r'.subscription, r'.payment);
    if GrantKey(r) == GrantKey(r') {
      DropPrefix("pro_grant:", r.subscription + ":" + r.payment, r'.subscription + ":" + r'.payment);
    }
  }

  lemma {:induction false} TopupIff(r: Reason, r': Reason)
    requires r.Topup? && r'.Topup?
    ensures GrantKey(r) == GrantKey(r') <==> r == r' || Confused(r, r') || Confused(r', r)
  {
    JoinedIff(r.order, r.payment, r'.order, r'.payment);
    if GrantKey(r) == GrantKey(r') {
      DropPrefix("topup_grant:", r.order + ":" + r.payment, r'.order + ":" + r'.payment);
    }
  }

  /** Two grants share a key exactly when they are for the same reason, or for the same sort of
      payment with the colon between the ids in another place. */
  lemma {:induction false} KeysShareIff(r: Reason, r': Reason)
    ensures GrantKey(r) == GrantKey(r') <==> r == r' || Confused(r, r') || Confused(r', r)
  {
    if r.Pro? && r'.Pro? {
      ProIff(r, r');
    } else if r.Topup? && r'.Topup? {
      TopupIff(r, r');
    } else if GrantKey(r) == GrantKey(r') {
      SortsDiffer(r, r');
      DropPrefix("free_trial:", r.owner, r'.owner);
    }
  }

  /** So subscription and order ids without a colon keep the grants of different payments apart. */
  lemma {:induction false} ColonFreeIdsAreApart(r: Reason, r': Reason)
    requires r.Pro? ==> ':' !in r.subscription
    requires r.Topup? ==> ':' !in r.order
    requires r'.Pro? ==> ':' !in r'.subscription
    requires r'.Topup? ==> ':' !in r'.order
    requires GrantKey(r) == GrantKey(r')
    ensures r == r'
  {
    KeysShareIff(r, r');
  }

  /** A second grant under the key of an earlier one is swallowed. */
  lemma {:induction false} SharedKeyIsSwallowed(b: Books, first: Call, second: Call, nulls: NullOrder)
    requires first.GrantCredits? && second.GrantCredits? && first.amount > 0 && first.key == second.key
    ensures var granted := Perform(b, first, nulls).books; Perform(granted, second, nulls).books == granted
  {
    SuccessSpends(b, first, nulls);
  }

  /** For instance, a payment "c" for the subscription "a:b" and a payment "b:c" for "a". */
  lemma {:induction false} ColonsConfuse()
    ensures GrantKey(Pro("a:b", "c")) == GrantKey(Pro("a", "b:c"))
  {
    var x' := "a:b";
    assert x'[..1] == "a" && x'[1] == ':' && x'[2..] == "b" && "b" + ":" + "c" == "b:c";
    assert Shifted("a", "b:c", x', "c");
    KeysShareIff(Pro("a:b", "c"), Pro("a", "b:c"));
  }
}
