/** The deterministic judge for profile facts, and the store its operations are applied to. */
module ProfileJudge {
  import opened Wrappers
  import opened Normalised
  import opened Dedupe
  import opened KeyedStore

  /** A fact with all that is computed from it: the key the judge looks for, the printed form, the
      memo the judge reads back from it, and the record the weaver stores for it. */
  datatype Item = Item(key: string, content: string, memo: string, stored: Record)

  /** A record's id is its place in the store. */
  datatype Operation =
    | Add(item: Item)
    | Update(item: Item, id: nat)
    | Noop(item: Item, id: nat)

  function KeyOf(item: Item): string {
    item.key
  }

  // ---------- Deciding ----------

  function MatchOf(item: Item, store: seq<Record>): Option<nat> {
    if item.key == "" then None else Lookup(store, item.key)
  }

  /** Matches are kept by printed form; of two items that print alike the later one counts. */
  function Matches(items: seq<Item>, store: seq<Record>): map<string, Option<nat>> {
    if items == [] then map[]
    else
      var n := |items| - 1;
      Matches(items[..n], store)[items[n].content := MatchOf(items[n], store)]
  }

  lemma {:induction false} LastMatchCounts(items: seq<Item>, store: seq<Record>, i: nat)
    requires i < |items| && forall j :: i < j < |items| ==> items[j].content != items[i].content
    ensures items[i].content in Matches(items, store)
    ensures Matches(items, store)[items[i].content] == MatchOf(items[i], store)
  {
    if i < |items| - 1 { LastMatchCounts(items[..|items| - 1], store, i); }
  }

  method FetchSimilar(items: seq<Item>, store: seq<Record>) returns (r: map<string, Option<nat>>)
    ensures r == Matches(items, store)
  {
    r := map[];
    for i := 0 to |items|
      invariant r == Matches(items[..i], store)
    {
      assert items[..i + 1][..i] == items[..i];
      r := r[items[i].content := MatchOf(items[i], store)];
    }
    assert items[..|items|] == items;
  }

  function Decide(item: Item, found: Option<nat>, store: seq<Record>): Operation {
    match found
    case None => Add(item)
    case Some(id) =>
      if id < |store| && Norm(item.memo) == Norm(store[id].memo) then Noop(item, id) else Update(item, id)
  }

  /** A found record is left alone exactly when its memo has the words of the item's; otherwise it is
      updated, and without one the item is added. */
  lemma {:induction false} DecisionIs(item: Item, found: Option<nat>, store: seq<Record>)
    requires found.Some? ==> found.value < |store|
    ensures found.None? <==> Decide(item, found, store) == Add(item)
    ensures found.Some? && SameWords(Words(item.memo), Words(store[found.value].memo))
       <==> Decide(item, found, store).Noop?
    ensures found.Some? ==> Decide(item, found, store).item == item && Decide(item, found, store).id == found.value
  {
    if found.Some? { NormIff(item.memo, store[found.value].memo); }
  }

  function Found(matches: map<string, Option<nat>>, content: string): Option<nat> {
    if content in matches then matches[content] else None
  }

  function DecideAll(items: seq<Item>, matches: map<string, Option<nat>>, store: seq<Record>): seq<Operation> {
    if items == [] then []
    else
      var n := |items| - 1;
      DecideAll(items[..n], matches, store) + [Decide(items[n], Found(matches, items[n].content), store)]
  }

  function Judged(items: seq<Item>, store: seq<Record>): seq<Operation> {
    var deduped := Deduped(items, KeyOf);
    DecideAll(deduped, Matches(deduped, store), store)
  }

  method DeterministicProfile(items: seq<Item>, store: seq<Record>) returns (operations: seq<Operation>)
    ensures operations == Judged(items, store)
  {
    var deduped := DedupeItems(items, KeyOf);
    var matches := FetchSimilar(deduped, store);
    operations := BuildOperations(deduped, matches, store);
  }

  method BuildOperations(items: seq<Item>, matches: map<string, Option<nat>>, store: seq<Record>)
    returns (operations: seq<Operation>)
    ensures operations == DecideAll(items, matches, store)
  {
    operations := [];
    for i := 0 to |items|
      invariant operations == DecideAll(items[..i], matches, store)
    {
      assert items[..i + 1][..i] == items[..i];
      var op := DecideOne(items[i], if items[i].content in matches then matches[items[i].content] else None, store);
      operations := operations + [op];
    }
    assert items[..|items|] == items;
  }

  method DecideOne(item: Item, found: Option<nat>, store: seq<Record>) returns (op: Operation)
    ensures op == Decide(item, found, store)
  {
    if found.None? {
      return Add(item);
    }
    var id := found.value;
    if id < |store| && Norm(item.memo) == Norm(store[id].memo) {
      return Noop(item, id);
    }
    return Update(item, id);
  }

  // ---------- Applying ----------

  /** What the weaver does with one operation. */
  function Apply(store: seq<Record>, op: Operation): seq<Record> {
    match op
    case Add(item) => store + [item.stored]
    case Update(item, id) => if id < |store| then store[id := item.stored] else store
    case Noop(_, _) => store
  }

  function ApplyAll(store: seq<Record>, ops: seq<Operation>): seq<Record> {
    if ops == [] then store else Apply(ApplyAll(store, ops[..|ops| - 1]), ops[|ops| - 1])
  }

  lemma {:induction false} ApplyOneMore(store: seq<Record>, ops: seq<Operation>, op: Operation)
    ensures ApplyAll(store, ops + [op]) == Apply(ApplyAll(store, ops), op)
  {
    assert (ops + [op])[..|ops|] == ops;
  }

  // ---------- Last writer wins ----------

  /** Judge and weaver agree on the item's key and memo. */
  predicate Clean(item: Item) {
    item.key != "" && item.stored == Record(item.key, item.memo)
  }

  /** All items are clean, and items with different keys print differently. */
  predicate AllClean(items: seq<Item>) {
    && EachClean(items)
    && forall i, j :: 0 <= i < |items| && 0 <= j < |items| && items[i].content == items[j].content ==>
      items[i].key == items[j].key
  }

  predicate EachClean(items: seq<Item>) {
    forall i :: 0 <= i < |items| ==> Clean(items[i])
  }

  function Stored(items: seq<Item>): seq<Record> {
    if items == [] then [] else Stored(items[..|items| - 1]) + [items[|items| - 1].stored]
  }

  lemma {:induction false} StoredAre(items: seq<Item>)
    ensures |Stored(items)| == |items| && forall i :: 0 <= i < |items| ==> Stored(items)[i] == items[i].stored
  {
    if items != [] { StoredAre(items[..|items| - 1]); }
  }

  lemma {:induction false} NoneStored(items: seq<Item>, key: string)
    requires forall i :: 0 <= i < |items| ==> items[i].stored.key != key
    ensures LastWith(Stored(items), RecordKey, key) == None
  {
    StoredAre(items);
    LastWithNone(Stored(items), RecordKey, key);
  }

  /** The last record stored under a key is that of the last item with it. */
  lemma {:induction false} LastStored(items: seq<Item>, key: string)
    requires EachClean(items)
    ensures LastWith(Stored(items), RecordKey, key)
         == match LastWith(items, KeyOf, key) case None => None case Some(item) => Some(item.stored)
  {
    if items != [] {
      var n := |items| - 1;
      LastStored(items[..n], key);
      assert Clean(items[n]);
      assert (Stored(items[..n]) + [items[n].stored])[..|Stored(items[..n])|] == Stored(items[..n]);
    }
  }

  /** Removing duplicates keeps the last record of every key, and one for each. */
  lemma {:induction false} DedupedKeepLast(items: seq<Item>, key: string)
    requires EachClean(items)
    ensures var deduped := Deduped(items, KeyOf);
            DistinctKeys(deduped, KeyOf) && EachClean(deduped)
              && LastWith(Stored(deduped), RecordKey, key) == LastWith(Stored(items), RecordKey, key)
  {
    var deduped := Deduped(items, KeyOf);
    DedupeKeepsLast(items, KeyOf, key);
    forall i | 0 <= i < |deduped| ensures Clean(deduped[i]) {
      assert deduped[i] in items;
    }
    LastStored(items, key);
    LastStored(deduped, key);
    if key == "" {
      NoneStored(items, key);
      NoneStored(deduped, key);
    }
  }

  /** Items all clean, each with its own match. */
  predicate Matched(items: seq<Item>, matches: map<string, Option<nat>>, store: seq<Record>) {
    forall i :: 0 <= i < |items| ==> Clean(items[i]) && Found(matches, items[i].content) == Lookup(store, items[i].key)
  }

  lemma {:induction false} MatchesByItem(items: seq<Item>, store: seq<Record>, item: Item)
    requires item in items && item.key != ""
    requires forall i :: 0 <= i < |items| && items[i].content == item.content ==> items[i].key == item.key
    ensures Found(Matches(items, store), item.content) == Lookup(store, item.key)
  {
    var n := |items| - 1;
    if items[n].content != item.content {
      Unsnoc(items);
      MatchesByItem(items[..n], store, item);
    }
  }

  lemma {:induction false} AllMatched(items: seq<Item>, store: seq<Record>)
    requires AllClean(items)
    ensures Matched(items, Matches(items, store), store)
  {
    forall i | 0 <= i < |items| ensures Found(Matches(items, store), items[i].content) == Lookup(store, items[i].key) {
      MatchesByItem(items, store, items[i]);
    }
  }

  /** Deciding on a clean item and applying the decision carries it into the store. */
  lemma {:induction false} DecisionCarries(item: Item, before: seq<Record>, now: seq<Record>)
    requires Clean(item) && |before| <= |now|
    ensures Apply(now, Decide(item, Lookup(before, item.key), before)) == Carry(item.stored, before, now)
    ensures |now| <= |Carry(item.stored, before, now)|
  {
    LookupIs(before, item.key);
  }

  lemma {:induction false} DecisionsCarryAll(items: seq<Item>, matches: map<string, Option<nat>>, store: seq<Record>)
    requires Matched(items, matches, store)
    ensures ApplyAll(store, DecideAll(items, matches, store)) == CarryAll(Stored(items), store)
    ensures |store| <= |CarryAll(Stored(items), store)|
  {
    if items != [] {
      var n := |items| - 1;
      var done := items[..n];
      DecisionsCarryAll(done, matches, store);
      ApplyOneMore(store, DecideAll(done, matches, store), Decide(items[n], Lookup(store, items[n].key), store));
      DecisionCarries(items[n], store, CarryAll(Stored(done), store));
      assert (Stored(done) + [items[n].stored])[..|Stored(done)|] == Stored(done);
    }
  }

  lemma {:induction false} DedupedIsClean(items: seq<Item>)
    requires AllClean(items)
    ensures AllClean(Deduped(items, KeyOf)) && DistinctKeys(Stored(Deduped(items, KeyOf)), RecordKey)
  {
    var deduped := Deduped(items, KeyOf);
    DedupedKeepLast(items, "");
    DedupeKeepsLast(items, KeyOf, "");
    StoredAre(deduped);
    forall i, j | 0 <= i < |deduped| && 0 <= j < |deduped| && deduped[i].content == deduped[j].content
      ensures deduped[i].key == deduped[j].key
    {
      assert deduped[i] in items && deduped[j] in items;
    }
    forall i, j | 0 <= i < j < |deduped| ensures Stored(deduped)[i].key != Stored(deduped)[j].key {
      assert KeyOf(deduped[i]) != KeyOf(deduped[j]);
    }
  }

  /** Applying what the judge decides stores, for every key, the last item given for it (up to
      normalised text), and leaves every other key alone. */
  lemma {:induction false} LastItemWins(items: seq<Item>, store: seq<Record>, key: string)
    requires AllClean(items)
    ensures Says(LastWith(Stored(items), RecordKey, key), MemoAt(store, key),
                 MemoAt(ApplyAll(store, Judged(items, store)), key))
  {
    var deduped := Deduped(items, KeyOf);
    DedupedIsClean(items);
    DedupedKeepLast(items, key);
    AllMatched(deduped, store);
    DecisionsCarryAll(deduped, Matches(deduped, store), store);
    CarryAllSays(Stored(deduped), store, key);
  }

  /** The store already says what the item says. */
  predicate Known(item: Item, store: seq<Record>) {
    MemoAt(store, item.key).Some? && Norm(MemoAt(store, item.key).value) == Norm(item.memo)
  }

  lemma {:induction false} AllNoops(items: seq<Item>, matches: map<string, Option<nat>>, store: seq<Record>)
    requires Matched(items, matches, store) && forall i :: 0 <= i < |items| ==> Known(items[i], store)
    ensures forall op :: op in DecideAll(items, matches, store) ==> op.Noop?
  {
    if items != [] {
      var n := |items| - 1;
      AllNoops(items[..n], matches, store);
      LookupIs(store, items[n].key);
    }
  }

  /** Judging the same items again changes nothing. */
  lemma {:induction false} RejudgingItemsIsQuiet(items: seq<Item>, store: seq<Record>)
    requires AllClean(items)
    ensures forall op :: op in Judged(items, ApplyAll(store, Judged(items, store))) ==> op.Noop?
  {
    var after, deduped := ApplyAll(store, Judged(items, store)), Deduped(items, KeyOf);
    DedupedIsClean(items);
    StoredAre(deduped);
    forall i | 0 <= i < |deduped| ensures Known(deduped[i], after) {
      var key := deduped[i].key;
      LastItemWins(items, store, key);
      DedupedKeepLast(items, key);
      DistinctIsLast(Stored(deduped), RecordKey, i);
    }
    AllMatched(deduped, after);
    AllNoops(deduped, Matches(deduped, after), after);
  }
}
