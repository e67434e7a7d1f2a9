/** Keeping one item per key, as a dictionary filled in order does. */
module Dedupe {
  import opened Wrappers

  /** `deduped[key] = item`: the place of the first, the value of the last. */
  function Put<T>(items: seq<T>, key: T -> string, item: T): seq<T> {
    if items == [] then [item]
    else if key(items[0]) == key(item) then [item] + items[1..]
    else [items[0]] + Put(items[1..], key, item)
  }

  function DedupedKeyed<T>(items: seq<T>, key: T -> string): seq<T> {
    if items == [] then []
    else
      var n := |items| - 1;
      var done := DedupedKeyed(items[..n], key);
      if key(items[n]) == "" then done else Put(done, key, items[n])
  }

  function Unkeyed<T>(items: seq<T>, key: T -> string): seq<T> {
    if items == [] then []
    else
      var n := |items| - 1;
      if key(items[n]) == "" then Unkeyed(items[..n], key) + [items[n]] else Unkeyed(items[..n], key)
  }

  /** The items with distinct keys, then those without a key. */
  function Deduped<T>(items: seq<T>, key: T -> string): seq<T> {
    DedupedKeyed(items, key) + Unkeyed(items, key)
  }

  method DedupeItems<T>(items: seq<T>, key: T -> string) returns (r: seq<T>)
    ensures r == Deduped(items, key)
  {
    var deduped, passthrough := [], [];
    for i := 0 to |items|
      invariant deduped == DedupedKeyed(items[..i], key) && passthrough == Unkeyed(items[..i], key)
    {
      assert items[..i + 1][..i] == items[..i];
      if key(items[i]) != "" {
        deduped := Put(deduped, key, items[i]);
      } else {
        passthrough := passthrough + [items[i]];
      }
    }
    assert items[..|items|] == items;
    r := deduped + passthrough;
  }

  /** The last item with a key. */
  function LastWith<T>(items: seq<T>, key: T -> string, k: string): Option<T> {
    if items == [] then None
    else
      var n := |items| - 1;
      if key(items[n]) == k then Some(items[n]) else LastWith(items[..n], key, k)
  }

  predicate DistinctKeys<T>(items: seq<T>, key: T -> string) {
    forall i, j :: 0 <= i < j < |items| ==> key(items[i]) != key(items[j])
  }

  lemma {:induction false} PutMembers<T>(items: seq<T>, key: T -> string, item: T, i: nat)
    requires i < |Put(items, key, item)|
    ensures Put(items, key, item)[i] == item || Put(items, key, item)[i] in items
  {
    if items != [] && key(items[0]) != key(item) && i > 0 { PutMembers(items[1..], key, item, i - 1); }
  }

  lemma {:induction false} PutIsDistinct<T>(items: seq<T>, key: T -> string, item: T)
    requires DistinctKeys(items, key)
    ensures DistinctKeys(Put(items, key, item), key)
  {
    if items != [] && key(items[0]) != key(item) {
      PutIsDistinct(items[1..], key, item);
      var rest := Put(items[1..], key, item);
      forall i | 0 <= i < |rest| ensures key(rest[i]) != key(items[0]) {
        PutMembers(items[1..], key, item, i);
      }
    }
  }

  lemma {:induction false} LastWithConcat<T>(a: seq<T>, b: seq<T>, key: T -> string, k: string)
    ensures LastWith(a + b, key, k) == if LastWith(b, key, k).Some? then LastWith(b, key, k) else LastWith(a, key, k)
  {
    if b == [] {
      assert a + b == a;
    } else {
      assert (a + b)[..|a + b| - 1] == a + b[..|b| - 1];
      LastWithConcat(a, b[..|b| - 1], key, k);
    }
  }

  lemma {:induction false} LastWithFirst<T>(item: T, rest: seq<T>, key: T -> string, k: string)
    ensures LastWith([item] + rest, key, k)
         == if LastWith(rest, key, k).Some? then LastWith(rest, key, k) else if key(item) == k then Some(item) else None
  {
    LastWithConcat([item], rest, key, k);
    assert [item][..0] == [];
  }

  lemma {:induction false} LastWithNone<T>(items: seq<T>, key: T -> string, k: string)
    requires forall i :: 0 <= i < |items| ==> key(items[i]) != k
    ensures LastWith(items, key, k) == None
  {
    if items != [] { LastWithNone(items[..|items| - 1], key, k); }
  }

  lemma {:induction false} PutIsLast<T>(items: seq<T>, key: T -> string, item: T, k: string)
    requires DistinctKeys(items, key)
    ensures LastWith(Put(items, key, item), key, k) == if key(item) == k then Some(item) else LastWith(items, key, k)
  {
    if items == [] {
      LastWithFirst(item, [], key, k);
      assert [item] + [] == [item];
    } else {
      var first, rest := items[0], items[1..];
      assert items == [first] + rest;
      LastWithFirst(first, rest, key, k);
      if key(first) == key(item) {
        LastWithFirst(item, rest, key, k);
        if key(item) == k { LastWithNone(rest, key, k); }
      } else {
        PutIsLast(rest, key, item, k);
        LastWithFirst(first, Put(rest, key, item), key, k);
      }
    }
  }

  lemma {:induction false} KeyedKeepsLast<T>(items: seq<T>, key: T -> string, k: string)
    ensures DistinctKeys(DedupedKeyed(items, key), key)
    ensures k != "" ==> LastWith(DedupedKeyed(items, key), key, k) == LastWith(items, key, k)
  {
    if items != [] {
      var n := |items| - 1;
      KeyedKeepsLast(items[..n], key, k);
      PutIsDistinct(DedupedKeyed(items[..n], key), key, items[n]);
      PutIsLast(DedupedKeyed(items[..n], key), key, items[n], k);
    }
  }

  lemma {:induction false} KeyedMembers<T>(items: seq<T>, key: T -> string, i: nat)
    requires i < |DedupedKeyed(items, key)|
    ensures DedupedKeyed(items, key)[i] in items && key(DedupedKeyed(items, key)[i]) != ""
  {
    var n := |items| - 1;
    var done := DedupedKeyed(items[..n], key);
    if key(items[n]) == "" {
      KeyedMembers(items[..n], key, i);
    } else {
      PutMembers(done, key, items[n], i);
      if DedupedKeyed(items, key)[i] != items[n] {
        var j :| 0 <= j < |done| && done[j] == DedupedKeyed(items, key)[i];
        KeyedMembers(items[..n], key, j);
      }
    }
  }

  lemma {:induction false} NoneUnkeyed<T>(items: seq<T>, key: T -> string)
    requires forall i :: 0 <= i < |items| ==> key(items[i]) != ""
    ensures Unkeyed(items, key) == [] && Deduped(items, key) == DedupedKeyed(items, key)
  {
    if items != [] { NoneUnkeyed(items[..|items| - 1], key); }
  }

  lemma {:induction false} UnkeyedMembers<T>(items: seq<T>, key: T -> string, i: nat)
    requires i < |Unkeyed(items, key)|
    ensures Unkeyed(items, key)[i] in items
  {
    var n := |items| - 1;
    if i < |Unkeyed(items[..n], key)| {
      UnkeyedMembers(items[..n], key, i);
    } else {
      assert items[n] in items;
    }
  }

  /** Removing duplicates makes no items up. */
  lemma {:induction false} DedupeMembers<T>(items: seq<T>, key: T -> string)
    ensures forall i :: 0 <= i < |Deduped(items, key)| ==> Deduped(items, key)[i] in items
  {
    forall i | 0 <= i < |Deduped(items, key)| ensures Deduped(items, key)[i] in items {
      if i < |DedupedKeyed(items, key)| {
        KeyedMembers(items, key, i);
      } else {
        UnkeyedMembers(items, key, i - |DedupedKeyed(items, key)|);
      }
    }
  }

  /** When every item has a key, removing duplicates leaves items of the given ones with distinct
      keys, the last for every key. */
  lemma {:induction false} DedupeKeepsLast<T>(items: seq<T>, key: T -> string, k: string)
    requires forall i :: 0 <= i < |items| ==> key(items[i]) != ""
    ensures DistinctKeys(Deduped(items, key), key)
    ensures k != "" ==> LastWith(Deduped(items, key), key, k) == LastWith(items, key, k)
    ensures forall i :: 0 <= i < |Deduped(items, key)| ==> Deduped(items, key)[i] in items
  {
    NoneUnkeyed(items, key);
    KeyedKeepsLast(items, key, k);
    DedupeMembers(items, key);
  }

  lemma {:induction false} LastWithIs<T>(items: seq<T>, key: T -> string, k: string)
    requires LastWith(items, key, k).Some?
    ensures exists i :: 0 <= i < |items| && items[i] == LastWith(items, key, k).value
    ensures key(LastWith(items, key, k).value) == k
  {
    var n := |items| - 1;
    if key(items[n]) != k {
      LastWithIs(items[..n], key, k);
      var i :| 0 <= i < n && items[..n][i] == LastWith(items, key, k).value;
      assert items[i] == items[..n][i];
    }
  }

  lemma {:induction false} DistinctIsLast<T>(items: seq<T>, key: T -> string, i: nat)
    requires DistinctKeys(items, key) && i < |items|
    ensures LastWith(items, key, key(items[i])) == Some(items[i])
  {
    if i < |items| - 1 { DistinctIsLast(items[..|items| - 1], key, i); }
  }

  // ---------- In which order ----------

  /** `kept` are the items before `n` without a key, in order; `at` are their places. */
  ghost predicate UnkeyedAt<T>(items: seq<T>, key: T -> string, n: nat, kept: seq<T>, at: seq<nat>) {
    && n <= |items| && |at| == |kept|
    && (forall i, j :: 0 <= i < j < |at| ==> at[i] < at[j])
    && (forall j :: 0 <= j < |at| ==> at[j] < n && key(items[at[j]]) == "" && kept[j] == items[at[j]])
    && forall i :: 0 <= i < n && key(items[i]) == "" ==> i in at
  }

  /** The items without a key all stay, in order. */
  lemma {:induction false} UnkeyedInOrder<T>(items: seq<T>, key: T -> string, n: nat) returns (at: seq<nat>)
    requires n <= |items|
    ensures UnkeyedAt(items, key, n, Unkeyed(items[..n], key), at)
  {
    at := [];
    if n > 0 {
      at := UnkeyedInOrder(items, key, n - 1);
      assert items[..n][..n - 1] == items[..n - 1];
      if key(items[n - 1]) == "" {
        OneMoreUnkeyed(items, key, n - 1, Unkeyed(items[..n - 1], key), at);
        at := at + [n - 1];
      }
    }
  }

  lemma {:induction false} OneMoreUnkeyed<T>(items: seq<T>, key: T -> string, n: nat, kept: seq<T>, at: seq<nat>)
    requires n < |items| && UnkeyedAt(items, key, n, kept, at) && key(items[n]) == ""
    ensures UnkeyedAt(items, key, n + 1, kept + [items[n]], at + [n])
  {
  }

  function Keys<T>(items: seq<T>, key: T -> string): (keys: seq<string>)
    ensures |keys| == |items|
  {
    if items == [] then [] else [key(items[0])] + Keys(items[1..], key)
  }

  lemma {:induction false} PutKeys<T>(items: seq<T>, key: T -> string, item: T)
    ensures Keys(Put(items, key, item), key)
         == if key(item) in Keys(items, key) then Keys(items, key) else Keys(items, key) + [key(item)]
  {
    if items != [] {
      Uncons(items);
      if key(items[0]) != key(item) { PutKeys(items[1..], key, item); }
    }
  }

  /** The key comes up first at `i`. */
  predicate FirstAt<T>(items: seq<T>, key: T -> string, k: string, i: nat) {
    i < |items| && key(items[i]) == k && forall j :: 0 <= j < i ==> key(items[j]) != k
  }

  /** `keys` are the keys that come up before `n`, in the order in which they do, at the places `at`. */
  predicate KeyedAt<T>(items: seq<T>, key: T -> string, n: nat, keys: seq<string>, at: seq<nat>) {
    && n <= |items| && |at| == |keys|
    && (forall i, j :: 0 <= i < j < |at| ==> at[i] < at[j])
    && (forall j :: 0 <= j < |at| ==> at[j] < n && FirstAt(items, key, keys[j], at[j]))
    && forall i :: 0 <= i < n && key(items[i]) != "" ==> key(items[i]) in keys
  }

  /** The kept items stand in the order in which their keys came up first. */
  lemma {:induction false} KeyedInOrder<T>(items: seq<T>, key: T -> string, n: nat) returns (at: seq<nat>)
    requires n <= |items|
    ensures KeyedAt(items, key, n, Keys(DedupedKeyed(items[..n], key), key), at)
  {
    at := [];
    if n > 0 {
      var done := DedupedKeyed(items[..n - 1], key);
      at := KeyedInOrder(items, key, n - 1);
      assert items[..n][..n - 1] == items[..n - 1];
      PutKeys(done, key, items[n - 1]);
      at := NextKey(items, key, n - 1, Keys(done, key), at, Keys(DedupedKeyed(items[..n], key), key));
    }
  }

  lemma {:induction false} NextKey<T>(items: seq<T>, key: T -> string, n: nat, keys: seq<string>, at: seq<nat>,
                                      keys': seq<string>)
    returns (at': seq<nat>)
    requires n < |items| && KeyedAt(items, key, n, keys, at)
    requires keys' == if key(items[n]) == "" || key(items[n]) in keys then keys else keys + [key(items[n])]
    ensures KeyedAt(items, key, n + 1, keys', at')
  {
    if key(items[n]) == "" || key(items[n]) in keys {
      at' := at;
    } else {
      OneMoreKey(items, key, n, keys, at);
      at' := at + [n];
    }
  }

  lemma {:induction false} OneMoreKey<T>(items: seq<T>, key: T -> string, n: nat, keys: seq<string>, at: seq<nat>)
    requires n < |items| && KeyedAt(items, key, n, keys, at) && key(items[n]) != "" && key(items[n]) !in keys
    ensures KeyedAt(items, key, n + 1, keys + [key(items[n])], at + [n])
  {
    assert FirstAt(items, key, key(items[n]), n);
  }
}
