/** When a batch of events, all judged on one snapshot, ends with every event recorded. */
module BatchRecorded {
  import opened Wrappers
  import opened Text
  import opened Paths
  import opened Search
  import opened Normalised
  import opened Dedupe
  import opened EventDates
  import opened TemporalFields
  import opened TemporalJudge
  import opened TemporalBatch
  import opened BatchJobs

  // ---------- From items to jobs ----------

  function JobsOf(items: seq<Item>, events: Events): (jobs: seq<Job>)
    ensures |jobs| == |items|
  {
    seq(|items|, i requires 0 <= i < |items| => JobOf(items[i].event, events))
  }

  lemma {:induction false} JobSits(e: Event, events: Events)
    requires e.name != "" && Trimmed(e.date) && Tidy(events, e.name)
    ensures Sits(JobOf(e, events), events) && Noded(JobOf(e, events))
  {
    LookupIs(events, e.name);
    if Lookup(events, e.name).Some? {
      var id := Lookup(events, e.name).value;
      var x := events[id].value;
      OnlyOneNamed(events, e.name, id);
      LoweredEmpty(x.name, e.name);
      if !Moved(e, x) { NormIsDate(e.date, x.date); }
    }
  }

  lemma {:induction false} SameNameSameKey(e: Event, f: Event)
    requires Trimmed(e.name) && Trimmed(f.name) && SameName(e, f)
    ensures Norm(e.name) == Norm(f.name)
  {
    StripTrimmed(e.name);
    StripTrimmed(f.name);
  }

  lemma {:induction false} NameHasKey(name: string)
    requires Trimmed(name) && name != ""
    ensures Norm(name) != ""
  {
    StripTrimmed(name);
    var s := Lowered(name);
    assert s[|s| - 1] == Lower(name[|name| - 1]);
    LowerKeepsSpace(name[|name| - 1]);
    LastCharacterMakesWord(s);
    FirstWordIsInk(s);
  }

  lemma {:induction false} FirstWordIsInk(s: string)
    requires Words(s) != []
    ensures Join(Words(s), ' ') != ""
  {
    var t := LStrip(s);
    LStripSplits(s);
    assert Words(s)[0] == t[..WordLength(t)] && WordLength(t) > 0;
  }

  /** What is asked of the items of a batch: they come stripped and named, and the store has one
      event of each name at most. */
  predicate Given(items: seq<Item>, events: Events) {
    && Stored(events)
    && forall i :: 0 <= i < |items| ==>
         && items[i] == ItemOf(items[i].event) && TrimmedEvent(items[i].event)
         && items[i].event.name != "" && Tidy(events, items[i].event.name)
  }

  predicate AllUnbarred(items: seq<Item>) {
    forall i :: 0 <= i < |items| ==> Unbarred(items[i].event)
  }

  lemma {:induction false} DistinctNames(items: seq<Item>, i: nat, j: nat)
    requires DistinctKeys(items, NameKey) && i < |items| && j < |items|
    requires Trimmed(items[i].event.name) && Trimmed(items[j].event.name) && SameName(items[i].event, items[j].event)
    ensures i == j
  {
    SameNameSameKey(items[i].event, items[j].event);
    assert NameKey(items[i]) == NameKey(items[j]);
  }

  lemma {:induction false} GivenIsFair(items: seq<Item>, events: Events)
    requires Given(items, events) && DistinctKeys(items, NameKey)
    ensures Fair(JobsOf(items, events), events)
  {
    var jobs := JobsOf(items, events);
    forall i | 0 <= i < |jobs| ensures jobs[i].event.name != "" && Sits(jobs[i], events) && Noded(jobs[i]) {
      JobSits(items[i].event, events);
    }
    forall i, j | 0 <= i < |jobs| && 0 <= j < |jobs| && SameName(jobs[i].event, jobs[j].event) ensures i == j {
      DistinctNames(items, i, j);
    }
  }

  // ---------- Every match is the item's own ----------

  lemma {:induction false} PlainItem(item: Item)
    requires item == ItemOf(item.event) && TrimmedEvent(item.event) && Unbarred(item.event)
    ensures item.incoming == item.event
  {
    PlainReadsBack(item.event);
  }

  lemma {:induction false} MatchIsOwn(items: seq<Item>, events: Events, item: Item)
    requires item in items
    requires forall i :: 0 <= i < |items| && items[i].content == item.content ==> items[i].event.name == item.event.name
    ensures FoundIn(Matches(items, events), item.content) == Found(item.event.name, events)
  {
    var n := |items| - 1;
    if items[n].content != item.content {
      Unsnoc(items);
      MatchIsOwn(items[..n], events, item);
    }
  }

  lemma {:induction false} JobOps(e: Event, events: Events)
    ensures DecideFound(e, Found(e.name, events)) == OpsOf(JobOf(e, events))
  {
  }

  lemma {:induction false} DecideAllIsJobs(items: seq<Item>, matches: map<string, Option<Event>>, events: Events)
    requires forall i :: 0 <= i < |items| ==>
      items[i].incoming == items[i].event && FoundIn(matches, items[i].content) == Found(items[i].event.name, events)
    ensures DecideAll(items, matches) == AllOps(JobsOf(items, events))
  {
    if items != [] {
      var n := |items| - 1;
      DecideAllIsJobs(items[..n], matches, events);
      JobOps(items[n].event, events);
      JobsNext(items, events);
    }
  }

  lemma {:induction false} JobsNext(items: seq<Item>, events: Events)
    requires items != []
    ensures var n := |items| - 1;
            AllOps(JobsOf(items, events)) == AllOps(JobsOf(items[..n], events)) + OpsOf(JobOf(items[n].event, events))
  {
    var n := |items| - 1;
    assert JobsOf(items, events) == JobsOf(items[..n], events) + [JobOf(items[n].event, events)];
    AllOpsNext(JobsOf(items[..n], events), JobOf(items[n].event, events));
  }

  lemma {:induction false} AllOpsNext(jobs: seq<Job>, job: Job)
    ensures AllOps(jobs + [job]) == AllOps(jobs) + OpsOf(job)
  {
    assert (jobs + [job])[..|jobs|] == jobs;
  }

  lemma {:induction false} BatchIsJobs(items: seq<Item>, events: Events)
    requires Given(items, events) && AllUnbarred(items)
    ensures DecideAll(items, Matches(items, events)) == AllOps(JobsOf(items, events))
  {
    forall i | 0 <= i < |items| ensures items[i].incoming == items[i].event { PlainItem(items[i]); }
    forall i | 0 <= i < |items| ensures FoundIn(Matches(items, events), items[i].content)
      == Found(items[i].event.name, events) {
      MatchIsOwn(items, events, items[i]);
    }
    DecideAllIsJobs(items, Matches(items, events), events);
  }

  // ---------- The last event of every name ----------

  predicate EachRecorded(items: seq<Item>, after: Events) {
    forall i :: 0 <= i < |items| ==> Recorded(items[i].event, after)
  }

  lemma {:induction false} BarredIsLost(items: seq<Item>, events: Events)
    requires Given(items, events) && !AllUnbarred(items)
    ensures !EachRecorded(items, ApplyAll(events, DecideAll(items, Matches(items, events))))
  {
    var ops := DecideAll(items, Matches(items, events));
    forall op | op in ops ensures UnbarredOp(op) {
      var i := DecidedFor(items, Matches(items, events), op);
      ReadBackIsPlain(items[i].content);
      DecidedIsUnbarred(items[i].incoming, FoundIn(Matches(items, events), items[i].content));
    }
    ApplyAllKeepsStored(events, ops);
    var i :| 0 <= i < |items| && !Unbarred(items[i].event);
    BarredIsNotRecorded(items[i].event, ApplyAll(events, ops));
  }

  lemma {:induction false} EachIsAll(items: seq<Item>, events: Events, after: Events)
    ensures EachRecorded(items, after) <==> AllRecorded(JobsOf(items, events), after)
  {
    var jobs := JobsOf(items, events);
    assert forall i :: 0 <= i < |items| ==> jobs[i].event == items[i].event;
  }

  lemma {:induction false} LeftRecordedIff(items: seq<Item>, events: Events)
    requires Given(items, events) && DistinctKeys(items, NameKey)
    ensures EachRecorded(items, ApplyAll(events, DecideAll(items, Matches(items, events))))
       <==> AllUnbarred(items) && AllFit(JobsOf(items, events), events)
  {
    if AllUnbarred(items) {
      BatchIsJobs(items, events);
      GivenIsFair(items, events);
      AllRecordedIff(JobsOf(items, events), events);
      EachIsAll(items, events, Final(JobsOf(items, events), events));
    } else {
      BarredIsLost(items, events);
    }
  }

  /** For every name the store says what the last item of that name says. */
  ghost predicate LastRecorded(items: seq<Item>, after: Events) {
    forall name :: LastWith(items, NameKey, name).Some? ==> Recorded(LastWith(items, NameKey, name).value.event, after)
  }

  lemma {:induction false} LastIsLeft(items: seq<Item>, after: Events)
    requires forall i :: 0 <= i < |items| ==> NameKey(items[i]) != ""
    ensures LastRecorded(items, after) <==> EachRecorded(Deduped(items, NameKey), after)
  {
    var left := Deduped(items, NameKey);
    DedupeKeepsLast(items, NameKey, "");
    if LastRecorded(items, after) {
      forall i | 0 <= i < |left| ensures Recorded(left[i].event, after) {
        assert left[i] in items;
        DedupeKeepsLast(items, NameKey, NameKey(left[i]));
        DistinctIsLast(left, NameKey, i);
      }
    }
    if EachRecorded(left, after) {
      forall name | LastWith(items, NameKey, name).Some? ensures Recorded(LastWith(items, NameKey, name).value.event,
          after) {
        LastWithIs(items, NameKey, name);
        DedupeKeepsLast(items, NameKey, name);
        LastWithIs(left, NameKey, name);
      }
    }
  }

  /** For every name the store ends up saying what the last item of the name says, exactly when
      no field of an item that is left contains the separator and every item left fits. */
  lemma {:induction false} LastEventsWinIff(items: seq<Item>, events: Events)
    requires Given(items, events)
    ensures var left := Deduped(items, NameKey);
            LastRecorded(items, ApplyAll(events, BatchJudged(items, events)))
            <==> AllUnbarred(left) && AllFit(JobsOf(left, events), events)
  {
    forall i | 0 <= i < |items| ensures NameKey(items[i]) != "" { NameHasKey(items[i].event.name); }
    var left := Deduped(items, NameKey);
    DedupeKeepsLast(items, NameKey, "");
    forall i | 0 <= i < |left|
      ensures left[i] == ItemOf(left[i].event) && TrimmedEvent(left[i].event)
              && left[i].event.name != "" && Tidy(events, left[i].event.name)
    {
      assert left[i] in items;
    }
    LastIsLeft(items, ApplyAll(events, BatchJudged(items, events)));
    LeftRecordedIff(left, events);
  }

  // ---------- One conflict ----------

  lemma {:induction false} PairIsJudged(a: Event, b: Event, x: Event)
    requires a.name != "" && b.name != "" && !SameName(x, a) && SameName(x, b) && !Same(b, x) && !Moved(b, x)
    ensures JobOf(a, [Some(x)]).effect == Adds && JobOf(b, [Some(x)]).effect == Sets
  {
    FirstIsFound([Some(x)], b.name, 0);
    NoneIsFound([Some(x)], a.name);
  }

  /** For instance, an event added to a day is overwritten by a later update of another event of
      that day. */
  lemma {:induction false} UpdateOverwritesAddition(a: Event, b: Event, x: Event)
    requires a.name != "" && b.name != "" && !SameName(a, b) && SameName(x, b)
    requires HasNode(x.date) && a.date == b.date == x.date && !Same(b, x)
    ensures var after := Final([JobOf(a, [Some(x)]), JobOf(b, [Some(x)])], [Some(x)]);
            after == [Some(Overlaid(x, b)), Some(Overlaid(a, b))] && Lookup(after, a.name) == None
  {
    PairIsJudged(a, b, x);
    TwoOps(JobOf(a, [Some(x)]), JobOf(b, [Some(x)]), Add(a), Update(b));
    ApplyTwo([Some(x)], Add(a), Update(b));
    TwoAreOverlaid(a, b, x);
    NoneIsFound([Some(Overlaid(x, b)), Some(Overlaid(a, b))], a.name);
  }

  lemma {:induction false} TwoOps(a: Job, b: Job, op: Operation, op': Operation)
    requires OpsOf(a) == [op] && OpsOf(b) == [op']
    ensures AllOps([a, b]) == [op, op']
  {
    assert [a, b][..1] == [a] && [a][..0] == [];
    assert AllOps([a]) == [] + [op] == [op];
  }

  lemma {:induction false} TwoAreOverlaid(a: Event, b: Event, x: Event)
    requires HasNode(a.date) && a.date == b.date == x.date
    ensures Updated(Created([Some(x)], a), b) == [Some(Overlaid(x, b)), Some(Overlaid(a, b))]
  {
    assert Created([Some(x)], a) == [Some(x), Some(a)];
  }
}
