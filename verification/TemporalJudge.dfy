/** The deterministic judge for temporal events, and the events the graph client keeps. */
module TemporalJudge {
  import opened Wrappers
  import opened Text
  import opened Search
  import opened Normalised
  import opened EventDates
  import opened TemporalFields

  /** Each operation with the event its content reads back as; a deletion names a date and a name. */
  datatype Operation =
    | Add(event: Event)
    | Update(event: Event)
    | Delete(date: string, name: string)
    | Noop(event: Event)

  /** The events of one user; a deleted event leaves its place empty. */
  type Events = seq<Option<Event>>

  /** All six fields agree up to normalised text. */
  predicate Same(a: Event, b: Event) {
    && Norm(a.date) == Norm(b.date) && Norm(a.name) == Norm(b.name) && Norm(a.desc) == Norm(b.desc)
    && Norm(a.year) == Norm(b.year) && Norm(a.time) == Norm(b.time) && Norm(a.expression) == Norm(b.expression)
  }

  predicate Moved(incoming: Event, existing: Event) {
    Norm(incoming.date) != Norm(existing.date)
  }

  function Decide(incoming: Event, existing: Event): seq<Operation> {
    if Same(incoming, existing) then [Noop(incoming)]
    else if Moved(incoming, existing) then [Delete(existing.date, existing.name), Add(incoming)]
    else [Update(incoming)]
  }

  predicate SameText(s: string, t: string) {
    SameWords(Words(s), Words(t))
  }

  /** Two events are the same exactly when each of their six fields has the same words, and one is
      moved when its date has others. */
  lemma {:induction false} SameIff(a: Event, b: Event)
    ensures Same(a, b) <==>
      && SameText(a.date, b.date) && SameText(a.name, b.name) && SameText(a.desc, b.desc)
      && SameText(a.year, b.year) && SameText(a.time, b.time) && SameText(a.expression, b.expression)
    ensures Moved(a, b) <==> !SameText(a.date, b.date)
  {
    NormIff(a.date, b.date);
    NormIff(a.name, b.name);
    NormIff(a.desc, b.desc);
    NormIff(a.year, b.year);
    NormIff(a.time, b.time);
    NormIff(a.expression, b.expression);
  }

  predicate Named(slot: Option<Event>, name: string) {
    slot.Some? && Lowered(slot.value.name) == Lowered(name)
  }

  predicate Dated(slot: Option<Event>, date: string) {
    slot.Some? && slot.value.date == date
  }

  /** `search_events_by_name`: the first event with a name, in any case; none for an empty name. */
  function Lookup(events: Events, name: string): (r: Option<nat>)
    ensures r.Some? ==> r.value < |events| && Named(events[r.value], name)
  {
    if events == [] || name == "" then None
    else if Named(events[0], name) then Some(0)
    else
      match Lookup(events[1..], name)
      case None => None
      case Some(i) => Some(i + 1)
  }

  /** The stored event an item of the name is compared with. */
  function Found(name: string, events: Events): Option<Event> {
    match Lookup(events, name)
    case None => None
    case Some(id) => events[id]
  }

  function JudgedAs(name: string, incoming: Event, events: Events): seq<Operation> {
    DecideFound(incoming, Found(name, events))
  }

  /** The operations for one item: it is looked up by its name and compared as it is printed. */
  function Judged(e: Event, events: Events): seq<Operation> {
    JudgedAs(e.name, Parsed(Printed(e)), events)
  }

  method JudgeEvent(e: Event, events: Events) returns (operations: seq<Operation>)
    ensures operations == Judged(e, events)
  {
    var id := Lookup(events, e.name);
    operations := DecideOne(Parsed(Printed(e)), if id.None? then None else events[id.value]);
  }

  function DecideFound(incoming: Event, found: Option<Event>): seq<Operation> {
    match found
    case None => [Add(incoming)]
    case Some(existing) => Decide(incoming, existing)
  }

  method DecideOne(incoming: Event, found: Option<Event>) returns (operations: seq<Operation>)
    ensures operations == DecideFound(incoming, found)
  {
    if found.None? {
      return [Add(incoming)];
    }
    var existing := found.value;
    if Same(incoming, existing) {
      operations := [Noop(incoming)];
    } else if Norm(incoming.date) != Norm(existing.date) {
      operations := [Delete(existing.date, existing.name), Add(incoming)];
    } else {
      operations := [Update(incoming)];
    }
  }

  // ---------- The graph client ----------

  /** `SET r += props`: name and description are always given, the other fields when not empty. */
  function Overlaid(x: Event, e: Event): Event {
    Event(x.date, e.name, e.desc, if e.year == "" then x.year else e.year, if e.time == "" then x.time else e.time,
          if e.expression == "" then x.expression else e.expression)
  }

  /** `create_event`: nothing is written for a date without a node. */
  function Created(events: Events, e: Event): Events {
    if HasNode(e.date) then events + [Some(e)] else events
  }

  /** `update_event`: every event of the date is set. */
  function Updated(events: Events, e: Event): (r: Events)
    ensures |r| == |events|
  {
    seq(|events|, i requires 0 <= i < |events| =>
      if Dated(events[i], e.date) then Some(Overlaid(events[i].value, e)) else events[i])
  }

  /** `delete_event`: every event of the date with exactly the name. */
  function Deleted(events: Events, date: string, name: string): (r: Events)
    ensures |r| == |events|
  {
    seq(|events|, i requires 0 <= i < |events| =>
      if Dated(events[i], date) && (name == "" || events[i].value.name == name) then None else events[i])
  }

  function Apply(events: Events, op: Operation): Events {
    match op
    case Add(e) => Created(events, e)
    case Update(e) => Updated(events, e)
    case Delete(date, name) => Deleted(events, date, name)
    case Noop(_) => events
  }

  function ApplyAll(events: Events, ops: seq<Operation>): Events
    decreases |ops|
  {
    if ops == [] then events else ApplyAll(Apply(events, ops[0]), ops[1..])
  }

  lemma {:induction false} ApplyTwo(events: Events, a: Operation, b: Operation)
    ensures ApplyAll(events, [a]) == Apply(events, a)
    ensures ApplyAll(events, [a, b]) == Apply(Apply(events, a), b)
  {
    assert [a][1..] == [] && [a, b][1..] == [b] && [b][1..] == [];
    var after := Apply(events, a);
    assert ApplyAll(after, [b]) == ApplyAll(Apply(after, b), []) == Apply(after, b);
  }

  // ---------- Looking up ----------

  predicate NoneNamed(events: Events, name: string) {
    forall i :: 0 <= i < |events| ==> !Named(events[i], name)
  }

  lemma {:induction false} LookupIs(events: Events, name: string)
    requires name != ""
    ensures match Lookup(events, name)
            case None => NoneNamed(events, name)
            case Some(i) => i < |events| && Named(events[i], name) && forall j :: 0 <= j < i ==> !Named(events[j], name)
  {
    if events != [] && !Named(events[0], name) {
      LookupIs(events[1..], name);
      forall j | 0 < j < |events| ensures events[j] == events[1..][j - 1] {}
    }
  }

  lemma {:induction false} FirstIsFound(events: Events, name: string, i: nat)
    requires name != "" && i < |events| && Named(events[i], name) && forall j :: 0 <= j < i ==> !Named(events[j], name)
    ensures Lookup(events, name) == Some(i)
  {
    LookupIs(events, name);
  }

  lemma {:induction false} NoneIsFound(events: Events, name: string)
    requires name != "" && NoneNamed(events, name)
    ensures Lookup(events, name) == None
  {
    LookupIs(events, name);
  }

  /** At most one event has the name, and every stored event has a date node. */
  predicate Tidy(events: Events, name: string) {
    && (forall i, j :: 0 <= i < j < |events| ==> !(Named(events[i], name) && Named(events[j], name)))
    && OnNodes(events)
  }

  predicate OnNodes(events: Events) {
    forall i :: 0 <= i < |events| && events[i].Some? ==> HasNode(events[i].value.date)
  }

  /** The store says what the item says. */
  predicate Recorded(e: Event, events: Events) {
    var id := Lookup(events, e.name);
    id.Some? && Same(e, events[id.value].value)
  }

  // ---------- What the client's operations keep ----------

  /** Stored events sit on date nodes, and no field of theirs contains the separator. */
  predicate Stored(events: Events) {
    && OnNodes(events)
    && forall i :: 0 <= i < |events| && events[i].Some? ==> Unbarred(events[i].value)
  }

  predicate UnbarredOp(op: Operation) {
    match op
    case Add(e) => Unbarred(e)
    case Update(e) => Unbarred(e)
    case _ => true
  }

  lemma {:induction false} ApplyKeepsStored(events: Events, op: Operation)
    requires Stored(events) && UnbarredOp(op)
    ensures Stored(Apply(events, op))
  {
  }

  lemma {:induction false} ApplyAllKeepsStored(events: Events, ops: seq<Operation>)
    requires Stored(events) && forall op :: op in ops ==> UnbarredOp(op)
    ensures Stored(ApplyAll(events, ops))
    decreases |ops|
  {
    if ops != [] {
      ApplyKeepsStored(events, ops[0]);
      ApplyAllKeepsStored(Apply(events, ops[0]), ops[1..]);
    }
  }

  lemma {:induction false} DecidedIsUnbarred(incoming: Event, found: Option<Event>)
    requires Unbarred(incoming)
    ensures forall op :: op in DecideFound(incoming, found) ==> UnbarredOp(op)
  {
  }

  lemma {:induction false} JudgedKeepsStored(e: Event, events: Events)
    requires Stored(events)
    ensures Stored(ApplyAll(events, Judged(e, events)))
  {
    ReadBackIsPlain(Printed(e));
    DecidedIsUnbarred(Parsed(Printed(e)), Found(e.name, events));
    ApplyAllKeepsStored(events, Judged(e, events));
  }

  /** Items judged and carried out one after the other. */
  function JudgeRun(es: seq<Event>): Events {
    if es == [] then []
    else
      var before := JudgeRun(es[..|es| - 1]);
      ApplyAll(before, Judged(es[|es| - 1], before))
  }

  /** Whatever items are judged, every store they build is of this kind. */
  lemma {:induction false} EveryRunIsStored(es: seq<Event>)
    ensures Stored(JudgeRun(es))
  {
    if es != [] {
      var n := |es| - 1;
      EveryRunIsStored(es[..n]);
      JudgedKeepsStored(es[n], JudgeRun(es[..n]));
    }
  }

  lemma {:induction false} SameBars(a: Event, b: Event)
    requires Same(a, b) && Unbarred(b)
    ensures Unbarred(a)
  {
    NormKeeps(a.date, '|');
    NormKeeps(b.date, '|');
    NormKeeps(a.name, '|');
    NormKeeps(b.name, '|');
    NormKeeps(a.desc, '|');
    NormKeeps(b.desc, '|');
    NormKeeps(a.year, '|');
    NormKeeps(b.year, '|');
    NormKeeps(a.time, '|');
    NormKeeps(b.time, '|');
    NormKeeps(a.expression, '|');
    NormKeeps(b.expression, '|');
  }

  /** No store says what an item with the separator in a field says. */
  lemma {:induction false} BarredIsNotRecorded(e: Event, events: Events)
    requires Stored(events) && !Unbarred(e)
    ensures !Recorded(e, events)
  {
    if Recorded(e, events) { SameBars(e, events[Lookup(events, e.name).value].value); }
  }

  lemma {:induction false} BarredNameIsUnknown(name: string, events: Events)
    requires Stored(events) && '|' in name
    ensures Lookup(events, name) == None
  {
    if Lookup(events, name).Some? {
      var x := events[Lookup(events, name).value].value;
      LoweredKeeps(name, '|');
      LoweredKeeps(x.name, '|');
    }
  }

  // ---------- One item ----------

  /** An item of the name that reads back as `e` gets an UPDATE: its event is known, on its date,
      with other content. */
  predicate UpdatesAs(name: string, e: Event, events: Events) {
    var found := Found(name, events);
    found.Some? && !Same(e, found.value) && !Moved(e, found.value)
  }

  predicate Updates(e: Event, events: Events) {
    UpdatesAs(e.name, e, events)
  }

  /** The first event of a date. */
  function FirstOn(events: Events, date: string): (r: Option<nat>)
    ensures r.Some? ==> r.value < |events| && Dated(events[r.value], date)
  {
    if events == [] then None
    else if Dated(events[0], date) then Some(0)
    else
      match FirstOn(events[1..], date)
      case None => None
      case Some(i) => Some(i + 1)
  }

  lemma {:induction false} FirstOnIs(events: Events, date: string)
    ensures match FirstOn(events, date)
            case None => forall j :: 0 <= j < |events| ==> !Dated(events[j], date)
            case Some(i) => i < |events| && Dated(events[i], date) && forall j :: 0 <= j < i ==> !Dated(events[j], date)
  {
    if events != [] && !Dated(events[0], date) {
      FirstOnIs(events[1..], date);
      forall j | 0 < j < |events| ensures events[j] == events[1..][j - 1] {}
    }
  }

  /** Every field the item leaves empty is empty in `x`, so setting the others makes them alike. */
  predicate Fills(e: Event, x: Event) {
    && (e.year == "" ==> Norm(x.year) == "")
    && (e.time == "" ==> Norm(x.time) == "")
    && (e.expression == "" ==> Norm(x.expression) == "")
  }

  /** The event is new to the store: it will be written if its date has a node. With another
      event of the name in the store, that one is found. */
  predicate Arrives(e: Event, left: Events) {
    match Found(e.name, left)
    case None => HasNode(e.date)
    case Some(x) => Same(e, x)
  }

  /** What a caller can check of an item before it is judged: a new or moved event needs a date
      with a node (and no other event of its name to be found first); an update needs the first
      event of its day to have nothing the item leaves out. */
  predicate WillBeRecorded(e: Event, events: Events) {
    match Found(e.name, events)
    case None => HasNode(e.date)
    case Some(x) =>
      if Same(e, x) then true
      else if Moved(e, x) then Arrives(e, Deleted(events, x.date, x.name))
      else FirstOn(events, e.date).Some? && Fills(e, events[FirstOn(events, e.date).value].value)
  }

  lemma {:induction false} AppendedIsRecorded(events: Events, e: Event)
    requires e.name != "" && NoneNamed(events, e.name)
    ensures Recorded(e, events + [Some(e)])
  {
    FirstIsFound(events + [Some(e)], e.name, |events|);
  }

  lemma {:induction false} ArrivalRecordedIff(left: Events, e: Event)
    requires e.name != ""
    ensures Recorded(e, Created(left, e)) <==> Arrives(e, left)
    ensures Lookup(left, e.name) == None && !HasNode(e.date) ==> Lookup(Created(left, e), e.name) == None
  {
    LookupIs(left, e.name);
    match Lookup(left, e.name)
    case None => if HasNode(e.date) { AppendedIsRecorded(left, e); }
    case Some(k) => FirstIsFound(Created(left, e), e.name, k);
  }

  lemma {:induction false} OnlyOneNamed(events: Events, name: string, id: nat)
    requires Tidy(events, name) && id < |events| && Named(events[id], name)
    ensures forall i :: 0 <= i < |events| && i != id ==> !Named(events[i], name)
  {
  }

  lemma {:induction false} DeletedIsGone(events: Events, name: string, id: nat)
    requires name != "" && Tidy(events, name) && Lookup(events, name) == Some(id)
    ensures NoneNamed(Deleted(events, events[id].value.date, events[id].value.name), name)
  {
    var x := events[id].value;
    OnlyOneNamed(events, name, id);
    assert Dated(events[id], x.date);
  }

  lemma {:induction false} MovedEventRecordedIff(e: Event, events: Events, x: Event)
    requires e.name != "" && Found(e.name, events) == Some(x) && Moved(e, x)
    ensures var after := ApplyAll(events, JudgedAs(e.name, e, events));
            after == Created(Deleted(events, x.date, x.name), e)
            && (Recorded(e, after) <==> Arrives(e, Deleted(events, x.date, x.name)))
  {
    ApplyTwo(events, Delete(x.date, x.name), Add(e));
    ArrivalRecordedIff(Deleted(events, x.date, x.name), e);
  }

  /** After an update the first event found is the first of its day. */
  lemma {:induction false} UpdatedIsFound(events: Events, e: Event, id: nat)
    requires e.name != "" && Lookup(events, e.name) == Some(id) && Dated(events[id], e.date)
    ensures FirstOn(events, e.date).Some? && Lookup(Updated(events, e), e.name) == FirstOn(events, e.date)
  {
    LookupIs(events, e.name);
    FirstOnIs(events, e.date);
    var first := FirstOn(events, e.date).value;
    var after := Updated(events, e);
    assert Named(after[first], e.name);
    forall j | 0 <= j < first ensures !Named(after[j], e.name) {
      assert !Dated(events[j], e.date);
    }
    FirstIsFound(after, e.name, first);
  }

  lemma {:induction false} OverlaidSameIff(e: Event, x: Event)
    requires x.date == e.date
    ensures Same(e, Overlaid(x, e)) <==> Fills(e, x)
  {
    NothingNormal();
  }

  lemma {:induction false} UpdatedEventRecordedIff(e: Event, events: Events)
    requires e.name != "" && OnNodes(events) && Trimmed(e.date) && Updates(e, events)
    ensures HasNode(e.date) && FirstOn(events, e.date).Some?
    ensures Recorded(e, ApplyAll(events, JudgedAs(e.name, e, events)))
       <==> Fills(e, events[FirstOn(events, e.date).value].value)
  {
    var id := Lookup(events, e.name).value;
    NormIsDate(e.date, events[id].value.date);
    ApplyTwo(events, Update(e), Update(e));
    UpdatedIsFound(events, e, id);
    OverlaidSameIff(e, events[FirstOn(events, e.date).value].value);
  }

  lemma {:induction false} PlainRecordedIff(e: Event, events: Events)
    requires e.name != "" && OnNodes(events) && Trimmed(e.date)
    ensures Recorded(e, ApplyAll(events, JudgedAs(e.name, e, events))) <==> WillBeRecorded(e, events)
  {
    match Found(e.name, events)
    case None =>
      ApplyTwo(events, Add(e), Add(e));
      ArrivalRecordedIff(events, e);
    case Some(x) =>
      if Same(e, x) {
        ApplyTwo(events, Noop(e), Noop(e));
      } else if Moved(e, x) {
        MovedEventRecordedIff(e, events, x);
      } else {
        UpdatedEventRecordedIff(e, events);
      }
  }

  /** After one judged item the store says what the item says exactly when no field of the item
      contains the separator and the item will be recorded: it is new or moved to a date with a
      node, or leaves nothing of the first event of its day that contradicts it. */
  lemma {:induction false} RecordedIff(e: Event, events: Events)
    requires TrimmedEvent(e) && e.name != "" && Stored(events)
    ensures Recorded(e, ApplyAll(events, Judged(e, events))) <==> Unbarred(e) && WillBeRecorded(e, events)
  {
    if Unbarred(e) {
      PlainReadsBack(e);
      PlainRecordedIff(e, events);
    } else {
      JudgedKeepsStored(e, events);
      BarredIsNotRecorded(e, ApplyAll(events, Judged(e, events)));
    }
  }

  /** New and moved events are recorded for every one of the 366 dates, but for those with the
      separator in a field. */
  lemma {:induction false} EveryDateIsRecorded(e: Event, events: Events)
    requires TrimmedEvent(e) && e.name != "" && Stored(events) && Tidy(events, e.name)
    requires HasNode(e.date) && !Updates(e, events)
    ensures Recorded(e, ApplyAll(events, Judged(e, events))) <==> Unbarred(e)
  {
    RecordedIff(e, events);
    if Lookup(events, e.name).Some? {
      var id := Lookup(events, e.name).value;
      DeletedIsGone(events, e.name, id);
      NoneIsFound(Deleted(events, events[id].value.date, events[id].value.name), e.name);
    }
  }

  /** An item is left alone exactly when the event found under its name says what the item reads
      back as. */
  lemma {:induction false} RecordedIsNoopIff(e: Event, events: Events)
    requires TrimmedEvent(e) && Stored(events)
    ensures var incoming := Parsed(Printed(e));
            Judged(e, events) == [Noop(incoming)] <==>
            Found(e.name, events).Some? && Same(incoming, Found(e.name, events).value)
    ensures Recorded(e, events) <==> Unbarred(e) && Judged(e, events) == [Noop(e)]
  {
    if Unbarred(e) {
      PlainReadsBack(e);
    } else {
      BarredIsNotRecorded(e, events);
    }
  }

  lemma {:induction false} LoweredEmpty(s: string, t: string)
    requires Lowered(s) == Lowered(t)
    ensures s == "" <==> t == ""
  {
    assert |Lowered(s)| == |s| && |Lowered(t)| == |t|;
  }

  lemma {:induction false} OtherSlotStaysIff(name: string, e: Event, events: Events, i: nat)
    requires i < |events| && events[i].Some? && !Named(events[i], name)
    requires Lookup(events, name).Some? ==> e.name == name
    ensures var after := ApplyAll(events, JudgedAs(name, e, events));
            i < |after| && (after[i] == events[i] <==> !(UpdatesAs(name, e, events) && events[i].value.date == e.date))
  {
    match Lookup(events, name)
    case None => ApplyTwo(events, Add(e), Add(e));
    case Some(id) =>
      var x := events[id].value;
      ApplyTwo(events, Delete(x.date, x.name), Add(e));
      ApplyTwo(events, Update(e), Update(e));
      ApplyTwo(events, Noop(e), Noop(e));
      LoweredEmpty(x.name, name);
  }

  /** An event of another name stays as it is exactly when the item, as it reads back, is no
      update of its day. */
  lemma {:induction false} OtherEventStaysIff(e: Event, events: Events, i: nat)
    requires TrimmedEvent(e) && '|' !in e.date && e.name != "" && Stored(events)
    requires i < |events| && events[i].Some? && !Named(events[i], e.name)
    ensures var after := ApplyAll(events, Judged(e, events));
            i < |after| && (after[i] == events[i] <==>
              !(UpdatesAs(e.name, Parsed(Printed(e)), events) && events[i].value.date == e.date))
  {
    if '|' in e.name {
      BarredNameIsUnknown(e.name, events);
    } else {
      DateAndNameReadBack(e);
    }
    OtherSlotStaysIff(e.name, Parsed(Printed(e)), events, i);
  }

  /** A known event whose item comes with a date that has no node is deleted and not written
      again. */
  lemma {:induction false} MovedToNowhereIsLost(e: Event, events: Events, id: nat)
    requires PlainEvent(e) && e.name != "" && Tidy(events, e.name) && Lookup(events, e.name) == Some(id)
    requires !HasNode(e.date)
    ensures Lookup(ApplyAll(events, Judged(e, events)), e.name) == None
  {
    PlainReadsBack(e);
    var x := events[id].value;
    if !Moved(e, x) { NormIsDate(e.date, x.date); }
    MovedEventRecordedIff(e, events, x);
    DeletedIsGone(events, e.name, id);
    NoneIsFound(Deleted(events, x.date, x.name), e.name);
  }

  /** The extraction lets such dates through. */
  lemma {:induction false} AcceptedItemLosesEvent(events: Events, name: string) returns (e: Event)
    requires Plain(name) && name != "" && Tidy(events, name) && Lookup(events, name).Some?
    ensures Accepted(e.date) && e.name == name && PlainEvent(e)
    ensures Lookup(ApplyAll(events, Judged(e, events)), name) == None
  {
    var date := AcceptedWithoutNode();
    e := Event(date, name, "", "", "", "");
    MovedToNowhereIsLost(e, events, Lookup(events, name).value);
  }

  /** An item with the separator in its name is added on every ingest and never recorded. */
  lemma {:induction false} BarredNameIsAddedAgain(e: Event, events: Events)
    requires '|' in e.name && Stored(events)
    ensures Judged(e, events) == [Add(Parsed(Printed(e)))]
    ensures !Recorded(e, ApplyAll(events, Judged(e, events)))
  {
    BarredNameIsUnknown(e.name, events);
    JudgedKeepsStored(e, events);
    BarredIsNotRecorded(e, ApplyAll(events, Judged(e, events)));
  }

  /** The extraction lets such names through, on a date that has a node. */
  lemma {:induction false} AcceptedItemIsNotRecorded(a: string, b: string) returns (e: Event)
    requires Trimmed(a) && Trimmed(b) && a != "" && b != ""
    ensures e.name == a + "|" + b && TrimmedEvent(e) && Accepted(e.date) && WillBeRecorded(e, [])
    ensures !Recorded(e, ApplyAll([], Judged(e, [])))
  {
    var date := NewYear();
    e := Event(date, a + "|" + b, "", "", "", "");
    assert e.name[|a|] == '|';
    BarredNameIsAddedAgain(e, []);
  }
}
