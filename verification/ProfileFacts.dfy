/** What the deterministic judge does with facts as they are extracted. */
module ProfileFacts {
  import opened Wrappers
  import opened Text
  import opened Normalised
  import opened Dedupe
  import opened ProfileKeys
  import opened KeyedStore
  import opened ProfileJudge

  /** What the weaver extracts from a printed fact. */
  function StoredRecord(content: string): Record {
    Record(StoredKey(content), StoredMemo(content))
  }

  function ItemFor(f: Fact): Item {
    Item(JudgeKey(f), Printed(f), JudgedMemo(Printed(f)), StoredRecord(Printed(f)))
  }

  function ItemsFor(facts: seq<Fact>): seq<Item> {
    if facts == [] then [] else ItemsFor(facts[..|facts| - 1]) + [ItemFor(facts[|facts| - 1])]
  }

  /** A fact whose key the judge and the weaver agree on. */
  predicate CleanFact(f: Fact) {
    Keyed(f) && KeepsKey(f)
  }

  method JudgeFacts(facts: seq<Fact>, store: seq<Record>) returns (operations: seq<Operation>)
    ensures operations == Judged(ItemsFor(facts), store)
  {
    var items := [];
    for i := 0 to |facts|
      invariant items == ItemsFor(facts[..i])
    {
      assert facts[..i + 1][..i] == facts[..i];
      items := items + [ItemFor(facts[i])];
    }
    assert facts[..|facts|] == facts;
    operations := DeterministicProfile(items, store);
  }

  lemma {:induction false} CleanFactIsCleanItem(f: Fact)
    requires CleanFact(f)
    ensures Clean(ItemFor(f)) && ItemFor(f).stored == Record(JudgeKey(f), Strip(f.memo))
  {
    KeysAgreeIff(f);
    OwnSplitStores(f);
  }

  lemma {:induction false} ItemsAre(facts: seq<Fact>)
    ensures |ItemsFor(facts)| == |facts|
  {
    if facts != [] { ItemsAre(facts[..|facts| - 1]); }
  }

  lemma {:induction false} ItemAt(facts: seq<Fact>, i: nat)
    requires i < |facts|
    ensures |ItemsFor(facts)| == |facts| && ItemsFor(facts)[i] == ItemFor(facts[i])
  {
    ItemsAre(facts);
    ItemsAre(facts[..|facts| - 1]);
    if i < |facts| - 1 { ItemAt(facts[..|facts| - 1], i); }
  }

  lemma {:induction false} SamePrintSameKey(f: Fact, g: Fact)
    requires CleanFact(f) && CleanFact(g)
    ensures ItemFor(f).content == ItemFor(g).content ==> ItemFor(f).key == ItemFor(g).key
  {
    KeysAgreeIff(f);
    KeysAgreeIff(g);
  }

  lemma {:induction false} CleanFactsAreCleanItems(facts: seq<Fact>)
    requires forall i :: 0 <= i < |facts| ==> CleanFact(facts[i])
    ensures AllClean(ItemsFor(facts))
  {
    var items := ItemsFor(facts);
    ItemsAre(facts);
    forall i | 0 <= i < |items| ensures Clean(items[i]) {
      ItemAt(facts, i);
      CleanFactIsCleanItem(facts[i]);
    }
    forall i, j | 0 <= i < |items| && 0 <= j < |items| && items[i].content == items[j].content
      ensures items[i].key == items[j].key
    {
      ItemAt(facts, i);
      ItemAt(facts, j);
      SamePrintSameKey(facts[i], facts[j]);
    }
  }

  lemma {:induction false} LastForItems(facts: seq<Fact>, key: string)
    requires forall i :: 0 <= i < |facts| ==> CleanFact(facts[i])
    ensures LastWith(Stored(ItemsFor(facts)), RecordKey, key)
         == match LastWith(facts, JudgeKey, key)
            case None => None
            case Some(f) => Some(Record(JudgeKey(f), Strip(f.memo)))
  {
    if facts != [] {
      var n := |facts| - 1;
      var items, item := ItemsFor(facts[..n]), ItemFor(facts[n]);
      LastForItems(facts[..n], key);
      CleanFactIsCleanItem(facts[n]);
      LastOneMore(items, item, key);
    }
  }

  lemma {:induction false} LastOneMore(items: seq<Item>, item: Item, key: string)
    ensures LastWith(Stored(items + [item]), RecordKey, key)
         == if item.stored.key == key then Some(item.stored) else LastWith(Stored(items), RecordKey, key)
  {
    assert (items + [item])[..|items|] == items;
    assert (Stored(items) + [item.stored])[..|Stored(items)|] == Stored(items);
  }

  /** Applying what the judge decides stores, for every key, the memo of the last fact given for
      it (up to normalised text), and leaves every other key alone. */
  lemma {:induction false} LastWriterWins(facts: seq<Fact>, store: seq<Record>, key: string)
    requires forall i :: 0 <= i < |facts| ==> CleanFact(facts[i])
    ensures var after := ApplyAll(store, Judged(ItemsFor(facts), store));
            match LastWith(facts, JudgeKey, key)
            case None => MemoAt(after, key) == MemoAt(store, key)
            case Some(f) => MemoAt(after, key).Some? && Norm(MemoAt(after, key).value) == Norm(Strip(f.memo))
  {
    CleanFactsAreCleanItems(facts);
    LastItemWins(ItemsFor(facts), store, key);
    LastForItems(facts, key);
  }

  /** Judging the same facts again changes nothing. */
  lemma {:induction false} RejudgingIsQuiet(facts: seq<Fact>, store: seq<Record>)
    requires forall i :: 0 <= i < |facts| ==> CleanFact(facts[i])
    ensures forall op :: op in Judged(ItemsFor(facts), ApplyAll(store, Judged(ItemsFor(facts), store))) ==> op.Noop?
  {
    CleanFactsAreCleanItems(facts);
    RejudgingItemsIsQuiet(ItemsFor(facts), store);
  }

  lemma {:induction false} JudgedAlone(item: Item, store: seq<Record>)
    requires item.key != ""
    ensures Judged([item], store) == [Decide(item, Lookup(store, item.key), store)]
  {
    assert [item][..0] == [];
    assert Unkeyed([item], KeyOf) == Unkeyed([item][..0], KeyOf) == [];
    assert DedupedKeyed([item], KeyOf) == Put(DedupedKeyed([item][..0], KeyOf), KeyOf, item) == [item];
    assert Deduped([item], KeyOf) == [item];
    MatchesByItem([item], store, item);
    assert DecideAll([], Matches([item], store), store) == [];
  }

  /** A new item, once applied, is found again exactly when it is stored under its own key. */
  lemma {:induction false} NewItemFoundIff(item: Item, store: seq<Record>)
    requires item.key != "" && Lookup(store, item.key) == None
    requires item.stored.key == item.key ==> item.stored.memo == item.memo
    ensures Judged([item], ApplyAll(store, Judged([item], store)))
         == (if item.stored.key == item.key then [Noop(item, |store|)] else [Add(item)])
  {
    JudgedAlone(item, store);
    assert [Add(item)][..0] == [];
    var after := store + [item.stored];
    assert ApplyAll(store, [Add(item)]) == after;
    JudgedAlone(item, after);
    LookupAppended(store, item.stored, item.key);
  }

  /** A new fact, once stored, is recognised the next time exactly when it keeps its key:
      otherwise it is added again, every time. */
  lemma {:induction false} StoredFactIsRecognisedIff(f: Fact, store: seq<Record>)
    requires Keyed(f) && Lookup(store, JudgeKey(f)) == None
    ensures var items := [ItemFor(f)];
            Judged(items, ApplyAll(store, Judged(items, store)))
            == (if KeepsKey(f) then [Noop(items[0], |store|)] else [Add(items[0])])
  {
    KeysAgreeIff(f);
    if SplitsAtOwn(f) { OwnSplitStores(f); }
    NewItemFoundIff(ItemFor(f), store);
  }
}
