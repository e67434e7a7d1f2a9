/** Events judged on one snapshot and carried out one after the other: what becomes of every slot,
    and which events end up recorded. */
module BatchJobs {
  import opened Wrappers
  import opened Search
  import opened EventDates
  import opened TemporalFields
  import opened TemporalJudge
  import opened TemporalBatch

  /** What the judge decided for an event: a new event, a move away from an old date and name, an
      event left alone, or an update. */
  datatype Effect = Adds | Moves(date: string, name: string) | Keeps | Sets

  /** An event, whether its date has a node, and what was decided for it. */
  datatype Job = Job(event: Event, node: bool, effect: Effect)

  function EffectOn(e: Event, found: Option<Event>): Effect {
    match found
    case None => Adds
    case Some(y) => if Same(e, y) then Keeps else if Moved(e, y) then Moves(y.date, y.name) else Sets
  }

  function JobOf(e: Event, events: Events): Job {
    Job(e, HasNode(e.date), EffectOn(e, Found(e.name, events)))
  }

  function OpsOf(job: Job): seq<Operation> {
    match job.effect
    case Adds => [Add(job.event)]
    case Moves(date, name) => [Delete(date, name), Add(job.event)]
    case Keeps => [Noop(job.event)]
    case Sets => [Update(job.event)]
  }

  function AllOps(jobs: seq<Job>): seq<Operation> {
    if jobs == [] then [] else AllOps(jobs[..|jobs| - 1]) + OpsOf(jobs[|jobs| - 1])
  }

  function Final(jobs: seq<Job>, events: Events): Events {
    ApplyAll(events, AllOps(jobs))
  }

  predicate Enters(job: Job) {
    job.effect.Adds? || job.effect.Moves?
  }

  predicate SetsOn(job: Job, date: string) {
    job.effect.Sets? && job.event.date == date
  }

  // ---------- One slot, one event ----------

  /** What carrying out one event's operations does to a slot. */
  function JobSlot(x: Option<Event>, job: Job): Option<Event> {
    match job.effect
    case Moves(date, name) => ApplySlot(x, Delete(date, name))
    case Sets => ApplySlot(x, Update(job.event))
    case _ => x
  }

  /** One event carried out: what it does to every slot, and the slot it adds. */
  predicate Carried(now: Events, job: Job, next: Events) {
    && (forall s :: 0 <= s < |now| ==> s < |next| && next[s] == JobSlot(now[s], job))
    && |next| == |now| + (if Enters(job) && job.node then 1 else 0)
    && (|next| > |now| ==> next[|now|] == Some(job.event))
  }

  predicate Noded(job: Job) {
    job.node <==> HasNode(job.event.date)
  }

  lemma {:induction false} JobIsCarried(now: Events, job: Job)
    requires Noded(job)
    ensures Carried(now, job, ApplyAll(now, OpsOf(job)))
  {
    match job.effect
    case Adds => ApplyTwo(now, Add(job.event), Add(job.event));
    case Moves(date, name) => ApplyTwo(now, Delete(date, name), Add(job.event));
    case Keeps => ApplyTwo(now, Noop(job.event), Noop(job.event));
    case Sets => ApplyTwo(now, Update(job.event), Update(job.event));
  }

  lemma {:induction false} ApplyConcat(events: Events, a: seq<Operation>, b: seq<Operation>)
    ensures ApplyAll(events, a + b) == ApplyAll(ApplyAll(events, a), b)
    decreases |a|
  {
    if a == [] {
      assert a + b == b;
    } else {
      assert (a + b)[1..] == a[1..] + b;
      ApplyConcat(Apply(events, a[0]), a[1..], b);
    }
  }

  predicate AllNoded(jobs: seq<Job>) {
    forall i :: 0 <= i < |jobs| ==> Noded(jobs[i])
  }

  lemma {:induction false} FinalNext(jobs: seq<Job>, events: Events)
    requires jobs != [] && AllNoded(jobs)
    ensures Carried(Final(jobs[..|jobs| - 1], events), jobs[|jobs| - 1], Final(jobs, events))
  {
    var n := |jobs| - 1;
    ApplyConcat(events, AllOps(jobs[..n]), OpsOf(jobs[n]));
    JobIsCarried(Final(jobs[..n], events), jobs[n]);
  }

  // ---------- One slot, all events ----------

  /** A slot after the events from number `p` on. */
  function Through(x: Option<Event>, jobs: seq<Job>, p: nat): Option<Event> {
    if |jobs| <= p then x else JobSlot(Through(x, jobs[..|jobs| - 1], p), jobs[|jobs| - 1])
  }

  /** Event `p` adds a slot. */
  predicate Entry(jobs: seq<Job>, p: nat) {
    p < |jobs| && Enters(jobs[p]) && jobs[p].node
  }

  /** What becomes of the slot event `p` adds. */
  function EntrySlot(jobs: seq<Job>, p: nat): Option<Event>
    requires p < |jobs|
  {
    Through(Some(jobs[p].event), jobs, p + 1)
  }

  lemma {:induction false} SnapshotSlot(jobs: seq<Job>, events: Events, s: nat)
    requires s < |events| && AllNoded(jobs)
    ensures s < |Final(jobs, events)| && Final(jobs, events)[s] == Through(events[s], jobs, 0)
  {
    if jobs != [] {
      SnapshotSlot(jobs[..|jobs| - 1], events, s);
      FinalNext(jobs, events);
    }
  }

  lemma {:induction false} EntrySlotNext(jobs: seq<Job>, p: nat)
    requires p < |jobs| - 1
    ensures jobs[..|jobs| - 1][p] == jobs[p]
    ensures EntrySlot(jobs, p) == JobSlot(EntrySlot(jobs[..|jobs| - 1], p), jobs[|jobs| - 1])
    ensures Entry(jobs, p) <==> Entry(jobs[..|jobs| - 1], p)
  {
  }

  /** Every slot behind the snapshot was added by some event. */
  lemma {:induction false} AddedBy(jobs: seq<Job>, events: Events, s: nat) returns (p: nat)
    requires |events| <= s < |Final(jobs, events)| && AllNoded(jobs)
    ensures Entry(jobs, p) && Final(jobs, events)[s] == EntrySlot(jobs, p)
  {
    if jobs != [] {
      var n := |jobs| - 1;
      FinalNext(jobs, events);
      if s < |Final(jobs[..n], events)| {
        p := AddedBy(jobs[..n], events, s);
        EntrySlotNext(jobs, p);
      } else {
        p := n;
      }
    }
  }

  lemma {:induction false} AddedLast(jobs: seq<Job>, events: Events) returns (s: nat)
    requires jobs != [] && Entry(jobs, |jobs| - 1) && AllNoded(jobs)
    ensures |events| <= s < |Final(jobs, events)| && Final(jobs, events)[s] == EntrySlot(jobs, |jobs| - 1)
  {
    var n := |jobs| - 1;
    FinalNext(jobs, events);
    FinalIsLonger(jobs[..n], events);
    s := |Final(jobs[..n], events)|;
  }

  /** Every event that enters has its slot there. */
  lemma {:induction false} AddedAt(jobs: seq<Job>, events: Events, p: nat) returns (s: nat)
    requires Entry(jobs, p) && AllNoded(jobs)
    ensures |events| <= s < |Final(jobs, events)| && Final(jobs, events)[s] == EntrySlot(jobs, p)
  {
    if p < |jobs| - 1 {
      EntrySlotNext(jobs, p);
      s := AddedAt(jobs[..|jobs| - 1], events, p);
      FinalNext(jobs, events);
    } else {
      s := AddedLast(jobs, events);
    }
  }

  lemma {:induction false} FinalIsLonger(jobs: seq<Job>, events: Events)
    requires AllNoded(jobs)
    ensures |events| <= |Final(jobs, events)|
  {
    if jobs != [] {
      FinalIsLonger(jobs[..|jobs| - 1], events);
      FinalNext(jobs, events);
    }
  }

  // ---------- The last update of a day ----------

  /** The last event from number `p` on that updates the day. */
  function LastUpdate(jobs: seq<Job>, p: nat, date: string): (r: Option<nat>)
    ensures r.Some? ==> p <= r.value < |jobs|
  {
    if |jobs| <= p then None
    else if SetsOn(jobs[|jobs| - 1], date) then Some(|jobs| - 1)
    else LastUpdate(jobs[..|jobs| - 1], p, date)
  }

  lemma {:induction false} LastUpdateIs(jobs: seq<Job>, p: nat, date: string)
    ensures match LastUpdate(jobs, p, date)
            case None => forall q :: p <= q < |jobs| ==> !SetsOn(jobs[q], date)
            case Some(j) => p <= j < |jobs| && SetsOn(jobs[j], date)
                            && forall q :: j < q < |jobs| ==> !SetsOn(jobs[q], date)
  {
    if |jobs| > p {
      var n := |jobs| - 1;
      LastUpdateIs(jobs[..n], p, date);
      assert forall q :: 0 <= q < n ==> jobs[..n][q] == jobs[q];
    }
  }

  /** A slot that is left keeps its date; it bears the name of the last update of its day, and
      without one it is as it was. */
  lemma {:induction false} ThroughIs(x: Event, jobs: seq<Job>, p: nat)
    ensures var y := Through(Some(x), jobs, p);
            y.Some? ==> y.value.date == x.date && match LastUpdate(jobs, p, x.date)
                                                  case None => y.value == x
                                                  case Some(j) => j < |jobs| && y.value.name == jobs[j].event.name
  {
    if |jobs| > p {
      var n := |jobs| - 1;
      ThroughIs(x, jobs[..n], p);
      if LastUpdate(jobs[..n], p, x.date).Some? {
        assert jobs[..n][LastUpdate(jobs[..n], p, x.date).value] == jobs[LastUpdate(jobs[..n], p, x.date).value];
      }
    }
  }

  /** The event deletes what is called and dated like `x`. */
  predicate Removes(job: Job, x: Event) {
    job.effect.Moves? && job.effect.date == x.date && (job.effect.name == "" || job.effect.name == x.name)
  }

  predicate Removed(jobs: seq<Job>, p: nat, x: Event) {
    exists q :: p <= q < |jobs| && Removes(jobs[q], x)
  }

  lemma {:induction false} RemovedNext(jobs: seq<Job>, p: nat, x: Event)
    requires |jobs| > p
    ensures Removed(jobs, p, x) <==> Removed(jobs[..|jobs| - 1], p, x) || Removes(jobs[|jobs| - 1], x)
  {
    var n := |jobs| - 1;
    assert forall q :: 0 <= q < n ==> jobs[..n][q] == jobs[q];
    if q :| p <= q < n && Removes(jobs[q], x) { assert Removes(jobs[..n][q], x); }
  }

  /** On a day without updates a slot goes exactly when one of the events removes it. */
  lemma {:induction false} GoneIff(x: Event, jobs: seq<Job>, p: nat)
    requires LastUpdate(jobs, p, x.date) == None
    ensures Through(Some(x), jobs, p) == if Removed(jobs, p, x) then None else Some(x)
  {
    if |jobs| > p {
      GoneIff(x, jobs[..|jobs| - 1], p);
      RemovedNext(jobs, p, x);
    }
  }

  lemma {:induction false} NothingBack(jobs: seq<Job>, p: nat)
    ensures Through(None, jobs, p) == None
  {
    if |jobs| > p { NothingBack(jobs[..|jobs| - 1], p); }
  }

  lemma {:induction false} ThroughSplits(x: Option<Event>, jobs: seq<Job>, p: nat, q: nat)
    requires p <= q <= |jobs|
    ensures Through(x, jobs, p) == Through(Through(x, jobs[..q], p), jobs, q)
  {
    if q < |jobs| {
      ThroughSplits(x, jobs[..|jobs| - 1], p, q);
      assert jobs[..|jobs| - 1][..q] == jobs[..q];
    } else {
      assert jobs[..q] == jobs;
    }
  }

  // ---------- Whose slot is whose ----------

  predicate SameName(e: Event, f: Event) {
    Lowered(e.name) == Lowered(f.name)
  }

  predicate OnlyNamed(events: Events, name: string, id: nat) {
    forall s :: 0 <= s < |events| && s != id ==> !Named(events[s], name)
  }

  /** The effect is about the one stored event of the name, if there is one. */
  predicate Sits(job: Job, events: Events) {
    match Lookup(events, job.event.name)
    case None => job.effect.Adds? && NoneNamed(events, job.event.name)
    case Some(id) =>
      var x := events[id].value;
      && OnlyNamed(events, job.event.name, id) && x.name != ""
      && match job.effect
         case Adds => false
         case Moves(date, name) => date == x.date && name == x.name
         case Keeps => job.event.date == x.date && job.node && Same(job.event, x)
         case Sets => job.event.date == x.date && job.node
  }

  /** Named events with distinct names, each decided on the one stored event of its name. */
  predicate Fair(jobs: seq<Job>, events: Events) {
    && AllNoded(jobs)
    && (forall i :: 0 <= i < |jobs| ==> jobs[i].event.name != "" && Sits(jobs[i], events))
    && (forall i, j :: 0 <= i < |jobs| && 0 <= j < |jobs| && SameName(jobs[i].event, jobs[j].event) ==> i == j)
  }

  /** What bears the name of event `p` is removed by event `p` only. */
  lemma {:induction false} RemovedBySelf(jobs: seq<Job>, events: Events, k: nat, x: Event, p: nat)
    requires Fair(jobs, events) && p < |jobs| && Lowered(x.name) == Lowered(jobs[p].event.name)
    ensures forall q :: k <= q < |jobs| && Removes(jobs[q], x) ==> q == p
  {
    forall q | k <= q < |jobs| && Removes(jobs[q], x) ensures q == p {
      assert Sits(jobs[q], events);
      assert SameName(jobs[q].event, jobs[p].event);
    }
  }

  lemma {:induction false} SnapshotNamed(jobs: seq<Job>, events: Events, s: nat, p: nat)
    requires Fair(jobs, events) && p < |jobs| && s < |events|
    requires s < |Final(jobs, events)| && Named(Final(jobs, events)[s], jobs[p].event.name)
    ensures events[s].Some?
    ensures var last := LastUpdate(jobs, 0, events[s].value.date);
            (last == None && Final(jobs, events)[s] == events[s]) || last == Some(p)
  {
    SnapshotSlot(jobs, events, s);
    if events[s] == None {
      NothingBack(jobs, 0);
    } else {
      var x := events[s].value;
      ThroughIs(x, jobs, 0);
      if LastUpdate(jobs, 0, x.date).Some? {
        assert SameName(jobs[LastUpdate(jobs, 0, x.date).value].event, jobs[p].event);
      }
    }
  }

  lemma {:induction false} EntryNamed(jobs: seq<Job>, events: Events, q: nat, p: nat)
    requires Fair(jobs, events) && p < |jobs| && q < |jobs| && Named(EntrySlot(jobs, q), jobs[p].event.name)
    ensures var last := LastUpdate(jobs, q + 1, jobs[q].event.date);
            (last == None && q == p && EntrySlot(jobs, q) == Some(jobs[p].event)) || last == Some(p)
  {
    var x := jobs[q].event;
    ThroughIs(x, jobs, q + 1);
    if LastUpdate(jobs, q + 1, x.date).Some? {
      assert SameName(jobs[LastUpdate(jobs, q + 1, x.date).value].event, jobs[p].event);
    } else {
      assert SameName(x, jobs[p].event);
    }
  }

  /** The slot the event is found in, at the end: one of the snapshot or one an event added. */
  lemma {:induction false} FoundAtEnd(jobs: seq<Job>, events: Events, p: nat) returns (k: nat, q: nat)
    requires Fair(jobs, events) && p < |jobs| && Lookup(Final(jobs, events), jobs[p].event.name).Some?
    ensures Lookup(Final(jobs, events), jobs[p].event.name) == Some(k) && k < |Final(jobs, events)|
    ensures k >= |events| ==> Entry(jobs, q) && Final(jobs, events)[k] == EntrySlot(jobs, q)
  {
    k := Lookup(Final(jobs, events), jobs[p].event.name).value;
    if k >= |events| {
      q := AddedBy(jobs, events, k);
    } else {
      q := 0;
    }
  }

  lemma {:induction false} NamedIsFound(events: Events, name: string, s: nat)
    requires name != "" && s < |events| && Named(events[s], name)
    ensures Lookup(events, name).Some?
  {
    LookupIs(events, name);
  }

  /** Where an event that is no update is found: where it was before, untouched, or in the slot it
      added itself. */
  lemma {:induction false} FoundUntouched(jobs: seq<Job>, events: Events, p: nat) returns (k: nat)
    requires Fair(jobs, events) && p < |jobs| && !jobs[p].effect.Sets?
    requires Lookup(Final(jobs, events), jobs[p].event.name).Some?
    ensures Lookup(Final(jobs, events), jobs[p].event.name) == Some(k) && k < |Final(jobs, events)|
    ensures if k < |events|
            then events[k].Some? && Final(jobs, events)[k] == events[k]
                 && LastUpdate(jobs, 0, events[k].value.date) == None
            else Entry(jobs, p) && Final(jobs, events)[k] == Some(jobs[p].event)
                 && LastUpdate(jobs, p + 1, jobs[p].event.date) == None
  {
    var q;
    k, q := FoundAtEnd(jobs, events, p);
    LookupNamed(Final(jobs, events), jobs[p].event.name, k);
    if k < |events| {
      OldUntouched(jobs, events, p, k);
    } else {
      NewUntouched(jobs, events, p, q);
    }
  }

  lemma {:induction false} OldUntouched(jobs: seq<Job>, events: Events, p: nat, s: nat)
    requires Fair(jobs, events) && p < |jobs| && !jobs[p].effect.Sets? && s < |events|
    requires s < |Final(jobs, events)| && Named(Final(jobs, events)[s], jobs[p].event.name)
    ensures events[s].Some? && Final(jobs, events)[s] == events[s] && LastUpdate(jobs, 0, events[s].value.date) == None
  {
    SnapshotNamed(jobs, events, s, p);
    LastUpdateIs(jobs, 0, events[s].value.date);
  }

  lemma {:induction false} NewUntouched(jobs: seq<Job>, events: Events, p: nat, q: nat)
    requires Fair(jobs, events) && p < |jobs| && !jobs[p].effect.Sets? && q < |jobs|
    requires Named(EntrySlot(jobs, q), jobs[p].event.name)
    ensures q == p && EntrySlot(jobs, q) == Some(jobs[p].event) && LastUpdate(jobs, p + 1, jobs[p].event.date) == None
  {
    EntryNamed(jobs, events, q, p);
    LastUpdateIs(jobs, q + 1, jobs[q].event.date);
  }

  // ---------- New and moved events ----------

  lemma {:induction false} MovedSlotGoes(jobs: seq<Job>, events: Events, p: nat, s: nat)
    requires Fair(jobs, events) && p < |jobs| && jobs[p].effect.Moves? && s < |events|
    requires Named(events[s], jobs[p].event.name) && LastUpdate(jobs, 0, events[s].value.date) == None
    ensures s < |Final(jobs, events)| && Final(jobs, events)[s] == None
  {
    assert Sits(jobs[p], events);
    assert Removes(jobs[p], events[s].value);
    SnapshotSlot(jobs, events, s);
    GoneIff(events[s].value, jobs, 0);
  }

  lemma {:induction false} EntrantLeavesSnapshot(jobs: seq<Job>, events: Events, p: nat, s: nat)
    requires Fair(jobs, events) && p < |jobs| && Enters(jobs[p]) && s < |events|
    ensures s < |Final(jobs, events)| && !Named(Final(jobs, events)[s], jobs[p].event.name)
  {
    assert Sits(jobs[p], events);
    SnapshotSlot(jobs, events, s);
    if Named(Final(jobs, events)[s], jobs[p].event.name) {
      OldUntouched(jobs, events, p, s);
      if jobs[p].effect.Moves? { MovedSlotGoes(jobs, events, p, s); }
    }
  }

  lemma {:induction false} EntrantIsFound(jobs: seq<Job>, events: Events, p: nat)
    requires Fair(jobs, events) && Entry(jobs, p) && LastUpdate(jobs, p + 1, jobs[p].event.date) == None
    ensures Lookup(Final(jobs, events), jobs[p].event.name).Some?
  {
    GoneIff(jobs[p].event, jobs, p + 1);
    RemovedBySelf(jobs, events, p + 1, jobs[p].event, p);
    var s := AddedAt(jobs, events, p);
    NamedIsFound(Final(jobs, events), jobs[p].event.name, s);
  }

  /** A new or moved event is recorded exactly when its date has a node and no later event of the
      batch updates its day. */
  lemma {:induction false} EntrantRecordedIff(jobs: seq<Job>, events: Events, p: nat)
    requires Fair(jobs, events) && p < |jobs| && Enters(jobs[p])
    ensures Recorded(jobs[p].event, Final(jobs, events))
       <==> jobs[p].node && LastUpdate(jobs, p + 1, jobs[p].event.date) == None
  {
    if Lookup(Final(jobs, events), jobs[p].event.name).Some? {
      var k := FoundUntouched(jobs, events, p);
      LookupNamed(Final(jobs, events), jobs[p].event.name, k);
      if k < |events| { EntrantLeavesSnapshot(jobs, events, p, k); }
    }
    if jobs[p].node && LastUpdate(jobs, p + 1, jobs[p].event.date) == None { EntrantIsFound(jobs, events, p); }
  }

  lemma {:induction false} LookupNamed(events: Events, name: string, k: nat)
    requires Lookup(events, name) == Some(k)
    ensures k < |events| && Named(events[k], name)
  {
  }

  // ---------- Events left alone ----------

  lemma {:induction false} KeptIsFound(jobs: seq<Job>, events: Events, p: nat)
    requires Fair(jobs, events) && p < |jobs| && jobs[p].effect.Keeps?
    requires LastUpdate(jobs, 0, jobs[p].event.date) == None
    ensures Lookup(Final(jobs, events), jobs[p].event.name).Some?
  {
    assert Sits(jobs[p], events);
    var id := Lookup(events, jobs[p].event.name).value;
    SnapshotSlot(jobs, events, id);
    GoneIff(events[id].value, jobs, 0);
    RemovedBySelf(jobs, events, 0, events[id].value, p);
    NamedIsFound(Final(jobs, events), jobs[p].event.name, id);
  }

  /** An event left alone is recorded exactly when no event of the batch updates its day. */
  lemma {:induction false} KeptRecordedIff(jobs: seq<Job>, events: Events, p: nat)
    requires Fair(jobs, events) && p < |jobs| && jobs[p].effect.Keeps?
    ensures Recorded(jobs[p].event, Final(jobs, events)) <==> LastUpdate(jobs, 0, jobs[p].event.date) == None
  {
    assert Sits(jobs[p], events);
    if Lookup(Final(jobs, events), jobs[p].event.name).Some? {
      var k := FoundUntouched(jobs, events, p);
      LookupNamed(Final(jobs, events), jobs[p].event.name, k);
    }
    if LastUpdate(jobs, 0, jobs[p].event.date) == None { KeptIsFound(jobs, events, p); }
  }

  // ---------- Updates ----------

  lemma {:induction false} LostFromSnapshot(jobs: seq<Job>, events: Events, p: nat, j: nat, s: nat)
    requires Fair(jobs, events) && p < |jobs| && jobs[p].effect.Sets? && s < |events|
    requires LastUpdate(jobs, 0, jobs[p].event.date) == Some(j) && j != p
    ensures s < |Final(jobs, events)| && !Named(Final(jobs, events)[s], jobs[p].event.name)
  {
    assert Sits(jobs[p], events);
    SnapshotSlot(jobs, events, s);
    if Named(Final(jobs, events)[s], jobs[p].event.name) {
      SnapshotNamed(jobs, events, s, p);
      LastUpdateIs(jobs, 0, events[s].value.date);
    }
  }

  lemma {:induction false} LostFromEntries(jobs: seq<Job>, events: Events, p: nat, j: nat, q: nat)
    requires Fair(jobs, events) && p < |jobs| && jobs[p].effect.Sets? && Entry(jobs, q)
    requires LastUpdate(jobs, 0, jobs[p].event.date) == Some(j) && j != p
    ensures !Named(EntrySlot(jobs, q), jobs[p].event.name)
  {
    LastIsOnly(jobs, p, j, q + 1);
    LastUpdateIs(jobs, q + 1, jobs[q].event.date);
    if Named(EntrySlot(jobs, q), jobs[p].event.name) { EntryNamed(jobs, events, q, p); }
  }

  lemma {:induction false} LastIsOnly(jobs: seq<Job>, p: nat, j: nat, k: nat)
    requires p < |jobs| && LastUpdate(jobs, 0, jobs[p].event.date) == Some(j) && j != p
    ensures LastUpdate(jobs, k, jobs[p].event.date) != Some(p)
  {
    LastUpdateIs(jobs, 0, jobs[p].event.date);
    LastUpdateIs(jobs, k, jobs[p].event.date);
  }

  /** An update followed by another of its day is lost. */
  lemma {:induction false} EarlierUpdateIsLost(jobs: seq<Job>, events: Events, p: nat, j: nat)
    requires Fair(jobs, events) && p < |jobs| && jobs[p].effect.Sets?
    requires LastUpdate(jobs, 0, jobs[p].event.date) == Some(j) && j != p
    ensures !Recorded(jobs[p].event, Final(jobs, events))
  {
    if Lookup(Final(jobs, events), jobs[p].event.name).Some? {
      var k, q := FoundAtEnd(jobs, events, p);
      if k < |events| {
        LostFromSnapshot(jobs, events, p, j, k);
      } else {
        LostFromEntries(jobs, events, p, j, q);
      }
    }
  }

  /** The first event of the day, from slot `k` on, that none of the jobs removes. */
  function FirstLeft(jobs: seq<Job>, events: Events, date: string, k: nat): (r: Option<nat>)
    ensures r.Some? ==> r.value < |events| && Dated(events[r.value], date)
    decreases |events| - k
  {
    if k >= |events| then None
    else if Dated(events[k], date) && !Removed(jobs, 0, events[k].value) then Some(k)
    else FirstLeft(jobs, events, date, k + 1)
  }

  lemma {:induction false} FirstLeftIs(jobs: seq<Job>, events: Events, date: string, k: nat)
    ensures match FirstLeft(jobs, events, date, k)
            case None => forall s :: k <= s < |events| && Dated(events[s], date) ==> Removed(jobs, 0, events[s].value)
            case Some(f) =>
              && k <= f < |events| && !Removed(jobs, 0, events[f].value)
              && forall s :: k <= s < f && Dated(events[s], date) ==> Removed(jobs, 0, events[s].value)
    decreases |events| - k
  {
    if k < |events| { FirstLeftIs(jobs, events, date, k + 1); }
  }

  /** Event `p` is the only update of its day. */
  predicate OnlyUpdate(jobs: seq<Job>, p: nat)
    requires p < |jobs|
  {
    jobs[p].effect.Sets? && forall q :: 0 <= q < |jobs| && q != p ==> !SetsOn(jobs[q], jobs[p].event.date)
  }

  lemma {:induction false} OnlyUpdateIs(jobs: seq<Job>, p: nat)
    requires p < |jobs| && OnlyUpdate(jobs, p)
    ensures var date := jobs[p].event.date;
            LastUpdate(jobs, 0, date) == Some(p) && LastUpdate(jobs[..p], 0, date) == None
            && LastUpdate(jobs, p + 1, date) == None
  {
    var date := jobs[p].event.date;
    LastUpdateIs(jobs, 0, date);
    LastUpdateIs(jobs[..p], 0, date);
    LastUpdateIs(jobs, p + 1, date);
    assert SetsOn(jobs[p], date);
    assert forall q :: 0 <= q < p ==> jobs[..p][q] == jobs[q];
  }

  /** What the only update of a day leaves of an event of the day. */
  lemma {:induction false} DayAfterUpdate(jobs: seq<Job>, events: Events, p: nat, x: Event)
    requires Fair(jobs, events) && p < |jobs| && OnlyUpdate(jobs, p) && x.date == jobs[p].event.date
    ensures Through(Some(x), jobs, 0)
         == if Removed(jobs[..p], 0, x) then None else Some(Overlaid(x, jobs[p].event))
  {
    OnlyUpdateIs(jobs, p);
    ThroughSplits(Some(x), jobs, 0, p);
    GoneIff(x, jobs[..p], 0);
    if Removed(jobs[..p], 0, x) {
      NothingBack(jobs, p);
    } else {
      var x' := Overlaid(x, jobs[p].event);
      ThroughSplits(Some(x), jobs, p, p + 1);
      OneJob(Some(x), jobs, p);
      GoneIff(x', jobs, p + 1);
      RemovedBySelf(jobs, events, p + 1, x', p);
    }
  }

  lemma {:induction false} OneJob(x: Option<Event>, jobs: seq<Job>, p: nat)
    requires p < |jobs|
    ensures Through(x, jobs[..p + 1], p) == JobSlot(x, jobs[p])
  {
    assert Through(x, jobs[..p + 1][..p], p) == x;
  }

  /** The event an update is found for is not removed before it. */
  lemma {:induction false} OwnIsLeft(jobs: seq<Job>, events: Events, p: nat, id: nat)
    requires Fair(jobs, events) && p < |jobs| && jobs[p].effect.Sets? && Lookup(events, jobs[p].event.name) == Some(id)
    ensures Dated(events[id], jobs[p].event.date) && !Removed(jobs[..p], 0, events[id].value)
  {
    assert Sits(jobs[p], events);
    RemovedBySelf(jobs, events, 0, events[id].value, p);
    assert forall q :: 0 <= q < p ==> jobs[..p][q] == jobs[q];
  }

  /** The only update of a day is found in the first event of the day that is left. */
  lemma {:induction false} UpdateIsFoundFirst(jobs: seq<Job>, events: Events, p: nat)
    requires Fair(jobs, events) && p < |jobs| && OnlyUpdate(jobs, p)
    ensures var first, e, after := FirstLeft(jobs[..p], events, jobs[p].event.date, 0), jobs[p].event,
            Final(jobs, events);
            first.Some? && Lookup(after, e.name) == first && first.value < |after|
            && after[first.value] == Some(Overlaid(events[first.value].value, e))
  {
    var e, after := jobs[p].event, Final(jobs, events);
    assert Sits(jobs[p], events);
    OwnIsLeft(jobs, events, p, Lookup(events, e.name).value);
    FirstLeftIs(jobs[..p], events, e.date, 0);
    var f := FirstLeft(jobs[..p], events, e.date, 0).value;
    DayAfterUpdate(jobs, events, p, events[f].value);
    SnapshotSlot(jobs, events, f);
    OnlyUpdateIs(jobs, p);
    forall s | 0 <= s < f ensures !Named(after[s], e.name) {
      SnapshotSlot(jobs, events, s);
      if Named(after[s], e.name) {
        SnapshotNamed(jobs, events, s, p);
        LastUpdateIs(jobs, 0, events[s].value.date);
        DayAfterUpdate(jobs, events, p, events[s].value);
      }
    }
    FirstIsFound(after, e.name, f);
  }

  /** The only update of a day is recorded exactly when it leaves nothing of the first event of the
      day that is left. */
  lemma {:induction false} UpdateRecordedIff(jobs: seq<Job>, events: Events, p: nat)
    requires Fair(jobs, events) && p < |jobs| && OnlyUpdate(jobs, p)
    ensures var first := FirstLeft(jobs[..p], events, jobs[p].event.date, 0);
            first.Some? && (Recorded(jobs[p].event, Final(jobs, events))
                            <==> Fills(jobs[p].event, events[first.value].value))
  {
    UpdateIsFoundFirst(jobs, events, p);
    var f := FirstLeft(jobs[..p], events, jobs[p].event.date, 0).value;
    OverlaidSameIff(jobs[p].event, events[f].value);
  }

  // ---------- The whole batch ----------

  /** What a caller can check of event `p` of a batch: its date has a node; no event of the batch
      updates its day, but for itself and, if it is new or moved, those before it; and an update
      leaves nothing of the first event of its day that no earlier event moves away. */
  predicate Fits(jobs: seq<Job>, p: nat, events: Events)
    requires p < |jobs|
  {
    var e := jobs[p].event;
    && jobs[p].node
    && (forall q :: 0 <= q < |jobs| && q != p && SetsOn(jobs[q], e.date) ==> Enters(jobs[p]) && q < p)
    && (jobs[p].effect.Sets? ==>
          var first := FirstLeft(jobs[..p], events, e.date, 0);
          first.Some? && Fills(e, events[first.value].value))
  }

  lemma {:induction false} FitIsRecorded(jobs: seq<Job>, p: nat, events: Events)
    requires Fair(jobs, events) && p < |jobs| && Fits(jobs, p, events)
    ensures Recorded(jobs[p].event, Final(jobs, events))
  {
    var date := jobs[p].event.date;
    match jobs[p].effect
    case Keeps =>
      LastUpdateIs(jobs, 0, date);
      KeptRecordedIff(jobs, events, p);
    case Sets => UpdateRecordedIff(jobs, events, p);
    case _ =>
      LastUpdateIs(jobs, p + 1, date);
      EntrantRecordedIff(jobs, events, p);
  }

  /** Two events of a day, one an update: both are recorded only if the other enters later. */
  lemma {:induction false} ConflictIsLost(jobs: seq<Job>, p: nat, q: nat, events: Events)
    requires Fair(jobs, events) && p < |jobs| && q < |jobs| && q != p && SetsOn(jobs[q], jobs[p].event.date)
    requires !(Enters(jobs[p]) && q < p)
    ensures !Recorded(jobs[p].event, Final(jobs, events)) || !Recorded(jobs[q].event, Final(jobs, events))
  {
    var date := jobs[p].event.date;
    LastUpdateIs(jobs, 0, date);
    match jobs[p].effect
    case Keeps => KeptRecordedIff(jobs, events, p);
    case Sets =>
      var j := LastUpdate(jobs, 0, date).value;
      if j != p { EarlierUpdateIsLost(jobs, events, p, j); } else { EarlierUpdateIsLost(jobs, events, q, j); }
    case _ =>
      LastUpdateIs(jobs, p + 1, date);
      EntrantRecordedIff(jobs, events, p);
  }

  predicate AllRecorded(jobs: seq<Job>, after: Events) {
    forall p :: 0 <= p < |jobs| ==> Recorded(jobs[p].event, after)
  }

  predicate AllFit(jobs: seq<Job>, events: Events) {
    forall p :: 0 <= p < |jobs| ==> Fits(jobs, p, events)
  }

  lemma {:induction false} RecordedFits(jobs: seq<Job>, p: nat, events: Events)
    requires Fair(jobs, events) && p < |jobs| && AllRecorded(jobs, Final(jobs, events))
    ensures Fits(jobs, p, events)
  {
    var e := jobs[p].event;
    assert Sits(jobs[p], events);
    assert Recorded(e, Final(jobs, events));
    if Enters(jobs[p]) { EntrantRecordedIff(jobs, events, p); }
    forall q | 0 <= q < |jobs| && q != p && SetsOn(jobs[q], e.date) ensures Enters(jobs[p]) && q < p {
      assert Recorded(jobs[q].event, Final(jobs, events));
      if !(Enters(jobs[p]) && q < p) { ConflictIsLost(jobs, p, q, events); }
    }
    if jobs[p].effect.Sets? { UpdateRecordedIff(jobs, events, p); }
  }

  lemma {:induction false} AllRecordedIff(jobs: seq<Job>, events: Events)
    requires Fair(jobs, events)
    ensures AllRecorded(jobs, Final(jobs, events)) <==> AllFit(jobs, events)
  {
    if AllRecorded(jobs, Final(jobs, events)) {
      forall p | 0 <= p < |jobs| ensures Fits(jobs, p, events) { RecordedFits(jobs, p, events); }
    }
    if AllFit(jobs, events) {
      forall p | 0 <= p < |jobs| ensures Recorded(jobs[p].event, Final(jobs, events)) { FitIsRecorded(jobs, p,
          events); }
    }
  }
}
