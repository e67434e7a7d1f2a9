/** Records looked up by key, and the store that remembers, for every key, the last item carried
    into it. */
module KeyedStore {
  import opened Wrappers
  import opened Normalised
  import opened Dedupe

  datatype Record = Record(key: string, memo: string)

  function RecordKey(r: Record): string {
    r.key
  }

  /** The first record with a key. */
  function Lookup(store: seq<Record>, key: string): Option<nat> {
    if store == [] then None
    else if store[0].key == key then Some(0)
    else
      match Lookup(store[1..], key)
      case None => None
      case Some(i) => Some(i + 1)
  }

  /** What the store holds for a key. */
  function MemoAt(store: seq<Record>, key: string): Option<string> {
    LookupIs(store, key);
    match Lookup(store, key)
    case None => None
    case Some(i) => Some(store[i].memo)
  }

  lemma {:induction false} LookupIs(store: seq<Record>, key: string)
    ensures match Lookup(store, key)
            case Some(i) => i < |store| && store[i].key == key && forall j :: 0 <= j < i ==> store[j].key != key
            case None => forall j :: 0 <= j < |store| ==> store[j].key != key
  {
    if store != [] && store[0].key != key {
      LookupIs(store[1..], key);
      forall j | 0 < j < |store| ensures store[j] == store[1..][j - 1] {}
    }
  }

  predicate KeysKept(before: seq<Record>, after: seq<Record>) {
    |before| <= |after| && forall i :: 0 <= i < |before| ==> after[i].key == before[i].key
  }

  /** The memo says what `last` says, or, when there is no such item, what it said before. */
  predicate Says(last: Option<Record>, before: Option<string>, after: Option<string>) {
    match last
    case None => after == before
    case Some(item) => after.Some? && Norm(after.value) == Norm(item.memo)
  }

  lemma {:induction false} LookupAt(store: seq<Record>, key: string, i: nat)
    requires i < |store| && store[i].key == key && forall j :: 0 <= j < i ==> store[j].key != key
    ensures Lookup(store, key) == Some(i) && MemoAt(store, key) == Some(store[i].memo)
  {
    LookupIs(store, key);
    assert Lookup(store, key).Some?;
  }

  lemma {:induction false} AppendedMemo(store: seq<Record>, r: Record, key: string)
    ensures var memo := MemoAt(store, key);
            MemoAt(store + [r], key) == (if memo.None? && r.key == key then Some(r.memo) else memo)
  {
    var store' := store + [r];
    LookupIs(store, key);
    LookupIs(store', key);
    match Lookup(store, key)
    case Some(i) => LookupAt(store', key, i);
    case None => if r.key == key { LookupAt(store', key, |store|); }
  }

  lemma {:induction false} ReplacedMemo(store: seq<Record>, id: nat, r: Record, key: string)
    requires Lookup(store, r.key) == Some(id)
    ensures id < |store|
    ensures MemoAt(store[id := r], key) == (if r.key == key then Some(r.memo) else MemoAt(store, key))
  {
    LookupIs(store, r.key);
    LookupIs(store, key);
    var store' := store[id := r];
    assert forall j :: 0 <= j < |store| ==> store'[j].key == store[j].key;
    match Lookup(store, key)
    case Some(i) => LookupAt(store', key, i);
    case None => LookupIs(store', key);
  }

  lemma {:induction false} SameKeysSameLookup(before: seq<Record>, after: seq<Record>, key: string)
    requires KeysKept(before, after) && Lookup(before, key).Some?
    ensures Lookup(after, key) == Lookup(before, key)
  {
    LookupIs(before, key);
    LookupIs(after, key);
  }

  lemma {:induction false} LookupAppended(store: seq<Record>, r: Record, key: string)
    requires Lookup(store, key) == None
    ensures Lookup(store + [r], key) == (if r.key == key then Some(|store|) else None)
  {
    LookupIs(store, key);
    LookupIs(store + [r], key);
    if r.key == key { LookupAt(store + [r], key, |store|); }
  }

  // ---------- Carrying items into a store ----------

  /** What becomes of one item, matched against `before` and written to `now`: added when its key
      is new, left alone when the text is the same, and otherwise put in the place of the old one. */
  function Carry(item: Record, before: seq<Record>, now: seq<Record>): seq<Record> {
    match Lookup(before, item.key)
    case None => now + [item]
    case Some(id) =>
      if id >= |before| || id >= |now| || Norm(item.memo) == Norm(before[id].memo) then now else now[id := item]
  }

  function CarryAll(items: seq<Record>, store: seq<Record>): seq<Record> {
    if items == [] then store
    else Carry(items[|items| - 1], store, CarryAll(items[..|items| - 1], store))
  }

  lemma {:induction false} CarryKeepsKeys(item: Record, before: seq<Record>, now: seq<Record>)
    requires KeysKept(before, now)
    ensures KeysKept(before, Carry(item, before, now))
  {
    LookupIs(before, item.key);
  }

  lemma {:induction false} CarrySays(item: Record, last: Option<Record>, before: seq<Record>, now: seq<Record>,
                                     key: string)
    requires KeysKept(before, now) && Says(last, MemoAt(before, key), MemoAt(now, key))
    requires MemoAt(now, item.key) == MemoAt(before, item.key)
    ensures Says(if item.key == key then Some(item) else last, MemoAt(before, key),
                 MemoAt(Carry(item, before, now), key))
  {
    LookupIs(before, item.key);
    match Lookup(before, item.key)
    case None => AppendedMemo(now, item, key);
    case Some(id) =>
      SameKeysSameLookup(before, now, item.key);
      if Norm(item.memo) != Norm(before[id].memo) { ReplacedMemo(now, id, item, key); }
  }

  /** Carrying items with distinct keys into a store leaves, for every key, its item's text (up
      to normalisation) or what was there before. */
  lemma {:induction false} CarryAllSays(items: seq<Record>, store: seq<Record>, key: string)
    requires DistinctKeys(items, RecordKey)
    ensures KeysKept(store, CarryAll(items, store))
    ensures Says(LastWith(items, RecordKey, key), MemoAt(store, key), MemoAt(CarryAll(items, store), key))
  {
    if items != [] {
      var n := |items| - 1;
      var item, done := items[n], items[..n];
      CarryAllSays(done, store, key);
      CarryAllSays(done, store, item.key);
      LastWithNone(done, RecordKey, item.key);
      CarryKeepsKeys(item, store, CarryAll(done, store));
      CarrySays(item, LastWith(done, RecordKey, key), store, CarryAll(done, store), key);
    }
  }
}
