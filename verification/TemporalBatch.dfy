/** A batch of events judged against one snapshot of the graph, as the judge does. */
module TemporalBatch {
  import opened Wrappers
  import opened Normalised
  import opened Dedupe
  import opened TemporalFields
  import opened TemporalJudge

  /** An item as the judge handles it: the event, its printed form, and what that reads back as. */
  datatype Item = Item(event: Event, content: string, incoming: Event)

  function ItemOf(e: Event): Item {
    Item(e, Printed(e), Parsed(Printed(e)))
  }

  function NameKey(item: Item): string {
    Norm(item.event.name)
  }

  /** Matches are kept by printed form; of two items that print alike the later one counts. */
  function Matches(items: seq<Item>, events: Events): map<string, Option<Event>> {
    if items == [] then map[]
    else
      var n := |items| - 1;
      Matches(items[..n], events)[items[n].content := Found(items[n].event.name, events)]
  }

  lemma {:induction false} LastMatchCounts(items: seq<Item>, events: Events, i: nat)
    requires i < |items| && forall j :: i < j < |items| ==> items[j].content != items[i].content
    ensures items[i].content in Matches(items, events)
    ensures Matches(items, events)[items[i].content] == Found(items[i].event.name, events)
  {
    if i < |items| - 1 { LastMatchCounts(items[..|items| - 1], events, i); }
  }

  function FoundIn(matches: map<string, Option<Event>>, content: string): Option<Event> {
    if content in matches then matches[content] else None
  }

  function DecideAll(items: seq<Item>, matches: map<string, Option<Event>>): seq<Operation> {
    if items == [] then []
    else
      var n := |items| - 1;
      DecideAll(items[..n], matches) + DecideFound(items[n].incoming, FoundIn(matches, items[n].content))
  }

  function BatchJudged(items: seq<Item>, events: Events): seq<Operation> {
    var deduped := Deduped(items, NameKey);
    DecideAll(deduped, Matches(deduped, events))
  }

  method JudgeEvents(es: seq<Event>, events: Events) returns (items: seq<Item>, operations: seq<Operation>)
    ensures |items| == |es| && forall i :: 0 <= i < |es| ==> items[i] == ItemOf(es[i])
    ensures operations == BatchJudged(items, events)
  {
    items := [];
    for i := 0 to |es|
      invariant |items| == i && forall j :: 0 <= j < i ==> items[j] == ItemOf(es[j])
    {
      items := items + [ItemOf(es[i])];
    }
    operations := DeterministicTemporal(items, events);
  }

  method FetchSimilar(items: seq<Item>, events: Events) returns (matches: map<string, Option<Event>>)
    ensures matches == Matches(items, events)
  {
    matches := map[];
    for i := 0 to |items|
      invariant matches == Matches(items[..i], events)
    {
      assert items[..i + 1][..i] == items[..i];
      matches := matches[items[i].content := Found(items[i].event.name, events)];
    }
    assert items[..|items|] == items;
  }

  method DeterministicTemporal(items: seq<Item>, events: Events) returns (operations: seq<Operation>)
    ensures operations == BatchJudged(items, events)
  {
    var deduped := DedupeItems(items, NameKey);
    var matches := FetchSimilar(deduped, events);
    operations := BuildOperations(deduped, matches);
  }

  method BuildOperations(items: seq<Item>, matches: map<string, Option<Event>>) returns (operations: seq<Operation>)
    ensures operations == DecideAll(items, matches)
  {
    operations := [];
    for i := 0 to |items|
      invariant operations == DecideAll(items[..i], matches)
    {
      assert items[..i + 1][..i] == items[..i];
      var content := items[i].content;
      var more := DecideOne(items[i].incoming, if content in matches then matches[content] else None);
      operations := operations + more;
    }
    assert items[..|items|] == items;
  }

  // ---------- What the operations do to one slot ----------

  function ApplySlot(x: Option<Event>, op: Operation): Option<Event> {
    match op
    case Update(e) => if Dated(x, e.date) then Some(Overlaid(x.value, e)) else x
    case Delete(date, name) => if Dated(x, date) && (name == "" || x.value.name == name) then None else x
    case _ => x
  }

  function SlotAfter(x: Option<Event>, ops: seq<Operation>): Option<Event>
    decreases |ops|
  {
    if ops == [] then x else SlotAfter(ApplySlot(x, ops[0]), ops[1..])
  }

  lemma {:induction false} SlotIs(events: Events, ops: seq<Operation>, s: nat)
    requires s < |events|
    ensures s < |ApplyAll(events, ops)| && ApplyAll(events, ops)[s] == SlotAfter(events[s], ops)
    decreases |ops|
  {
    if ops != [] { SlotIs(Apply(events, ops[0]), ops[1..], s); }
  }

  // ---------- Events of other names ----------

  /** The operation neither names nor bears the name of `x`. */
  predicate Elsewhere(op: Operation, x: Event) {
    match op
    case Update(e) => e.name != x.name
    case Delete(_, name) => name != "" && name != x.name
    case _ => true
  }

  lemma {:induction false} ChangedStays(y: Option<Event>, ops: seq<Operation>, x: Event)
    requires y.Some? ==> y.value.name != x.name
    requires forall op :: op in ops ==> Elsewhere(op, x)
    ensures SlotAfter(y, ops) != Some(x)
    decreases |ops|
  {
    if ops != [] {
      assert ops[0] in ops;
      ChangedStays(ApplySlot(y, ops[0]), ops[1..], x);
    }
  }

  predicate SetsDay(op: Operation, date: string) {
    op.Update? && op.event.date == date
  }

  lemma {:induction false} SlotStaysIff(x: Event, ops: seq<Operation>)
    requires forall op :: op in ops ==> Elsewhere(op, x)
    ensures SlotAfter(Some(x), ops) == Some(x) <==> forall op :: op in ops ==> !SetsDay(op, x.date)
    decreases |ops|
  {
    if ops != [] {
      Uncons(ops);
      assert ops[0] in ops;
      if SetsDay(ops[0], x.date) {
        ChangedStays(ApplySlot(Some(x), ops[0]), ops[1..], x);
      } else {
        SlotStaysIff(x, ops[1..]);
      }
    }
  }

  /** The item, with this match, is an update of the day. */
  predicate UpdatesDay(item: Item, found: Option<Event>, date: string) {
    && found.Some? && !Same(item.incoming, found.value) && !Moved(item.incoming, found.value)
    && item.incoming.date == date
  }

  lemma {:induction false} DecidedIs(item: Item, found: Option<Event>, x: Event)
    requires item.incoming.name != x.name
    requires found.Some? ==> found.value.name != "" && found.value.name != x.name
    ensures forall op :: op in DecideFound(item.incoming, found) ==> Elsewhere(op, x)
    ensures forall op :: op in DecideFound(item.incoming, found) && SetsDay(op, x.date) ==>
      UpdatesDay(item, found, x.date)
  {
  }

  /** What is found under a name bears the name. */
  lemma {:induction false} FoundIsNamed(name: string, events: Events)
    ensures Found(name, events).Some? ==>
              Named(Found(name, events), name) && Found(name, events).value.name != "" && Found(name, events) in events
  {
    if Found(name, events).Some? { LoweredEmpty(Found(name, events).value.name, name); }
  }

  /** Every match is found under the name of one of the items. */
  lemma {:induction false} MatchesAreFound(items: seq<Item>, events: Events, content: string)
    ensures FoundIn(Matches(items, events), content).Some? ==>
              exists i :: 0 <= i < |items| && FoundIn(Matches(items, events), content)
                == Found(items[i].event.name, events)
  {
    if items != [] {
      var n := |items| - 1;
      if items[n].content != content {
        MatchesAreFound(items[..n], events, content);
        if FoundIn(Matches(items, events), content).Some? {
          var i :| 0 <= i < n && FoundIn(Matches(items, events), content) == Found(items[..n][i].event.name, events);
          assert items[i] == items[..n][i];
        }
      }
    }
  }

  lemma {:induction false} MatchIsElsewhere(items: seq<Item>, events: Events, content: string, x: Event)
    requires forall i :: 0 <= i < |items| ==> !Named(Some(x), items[i].event.name)
    ensures var found := FoundIn(Matches(items, events), content);
            found.Some? ==> found.value.name != "" && found.value.name != x.name
  {
    MatchesAreFound(items, events, content);
    if FoundIn(Matches(items, events), content).Some? {
      var i :| 0 <= i < |items| && FoundIn(Matches(items, events), content) == Found(items[i].event.name, events);
      FoundIsNamed(items[i].event.name, events);
    }
  }

  lemma {:induction false} DecidedFor(items: seq<Item>, matches: map<string, Option<Event>>, op: Operation)
    returns (i: nat)
    requires op in DecideAll(items, matches)
    ensures i < |items| && op in DecideFound(items[i].incoming, FoundIn(matches, items[i].content))
  {
    var n := |items| - 1;
    if op in DecideFound(items[n].incoming, FoundIn(matches, items[n].content)) {
      i := n;
    } else {
      i := DecidedFor(items[..n], matches, op);
    }
  }

  lemma {:induction false} UpdateIsDecided(items: seq<Item>, matches: map<string, Option<Event>>, i: nat, date: string)
    requires i < |items| && UpdatesDay(items[i], FoundIn(matches, items[i].content), date)
    ensures Update(items[i].incoming) in DecideAll(items, matches)
  {
    var n := |items| - 1;
    if i == n {
      assert DecideFound(items[n].incoming, FoundIn(matches, items[n].content))[0] == Update(items[n].incoming);
    } else {
      assert items[..n][i] == items[i];
      UpdateIsDecided(items[..n], matches, i, date);
    }
  }

  /** No item's name or match is that of `x`. */
  predicate Apart(items: seq<Item>, matches: map<string, Option<Event>>, x: Event) {
    forall i :: 0 <= i < |items| ==>
      && items[i].incoming.name != x.name
      && var found := FoundIn(matches, items[i].content);
         found.Some? ==> found.value.name != "" && found.value.name != x.name
  }

  lemma {:induction false} DecidedSlotStaysIff(items: seq<Item>, matches: map<string, Option<Event>>, x: Event)
    requires Apart(items, matches, x)
    ensures SlotAfter(Some(x), DecideAll(items, matches)) == Some(x) <==>
              forall i :: 0 <= i < |items| ==> !UpdatesDay(items[i], FoundIn(matches, items[i].content), x.date)
  {
    var ops := DecideAll(items, matches);
    forall op | op in ops
      ensures Elsewhere(op, x)
      ensures SetsDay(op, x.date) ==>
        exists i :: 0 <= i < |items| && UpdatesDay(items[i], FoundIn(matches, items[i].content), x.date)
    {
      var i := DecidedFor(items, matches, op);
      DecidedIs(items[i], FoundIn(matches, items[i].content), x);
    }
    SlotStaysIff(x, ops);
    if i :| 0 <= i < |items| && UpdatesDay(items[i], FoundIn(matches, items[i].content), x.date) {
      UpdateIsDecided(items, matches, i, x.date);
      assert SetsDay(Update(items[i].incoming), x.date);
    }
  }

  lemma {:induction false} MatchesAreApart(items: seq<Item>, events: Events, x: Event)
    requires forall i :: 0 <= i < |items| ==>
      !Named(Some(x), items[i].event.name) && items[i].incoming.name != x.name
    ensures Apart(items, Matches(items, events), x)
  {
    forall i | 0 <= i < |items|
      ensures var found := FoundIn(Matches(items, events), items[i].content);
              found.Some? ==> found.value.name != "" && found.value.name != x.name
    {
      MatchIsElsewhere(items, events, items[i].content, x);
    }
  }

  /** For every batch: an event of none of the batch's names stays as it was exactly when no item
      left is an update of its day. */
  lemma {:induction false} OtherNamesStayIff(items: seq<Item>, events: Events, s: nat)
    requires s < |events| && events[s].Some?
    requires forall i :: 0 <= i < |items| ==>
      !Named(events[s], items[i].event.name) && items[i].incoming.name != events[s].value.name
    ensures var after, deduped := ApplyAll(events, BatchJudged(items, events)), Deduped(items, NameKey);
            s < |after| && (after[s] == events[s] <==>
              forall i :: 0 <= i < |deduped| ==>
                !UpdatesDay(deduped[i], FoundIn(Matches(deduped, events), deduped[i].content), events[s].value.date))
  {
    var deduped, x := Deduped(items, NameKey), events[s].value;
    DedupeMembers(items, NameKey);
    forall i | 0 <= i < |deduped|
      ensures !Named(events[s], deduped[i].event.name) && deduped[i].incoming.name != x.name
    {
      assert deduped[i] in items;
    }
    MatchesAreApart(deduped, events, x);
    DecidedSlotStaysIff(deduped, Matches(deduped, events), x);
    SlotIs(events, BatchJudged(items, events), s);
  }
}
