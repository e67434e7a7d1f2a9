/** Concurrent callers: each call is an early read, possibly stale by the time it matters,
    and one atomic transaction. Every interleaving is a serial run. */
module LedgerInterleaving {
  import opened Wrappers
  import opened CreditLots
  import opened CreditLedger
  import opened LedgerHistory

  /** A step of call number `id`. */
  datatype Event = Reads(id: nat) | Transacts(id: nat)

  datatype World = World(books: Books, replies: map<nat, Reply>)

  /** Calls answer once: a call that has its reply takes no further step. */
  function Step(w: World, e: Event, calls: seq<Call>, nulls: NullOrder): World {
    if e.id >= |calls| || e.id in w.replies then w
    else
      match e
      case Reads(id) =>
        (match Read(w.books, calls[id])
         case Some(reply) => w.(replies := w.replies[id := reply])
         case None => w)
      case Transacts(id) =>
        var outcome := Transact(w.books, calls[id], nulls);
        World(outcome.books, w.replies[id := outcome.reply])
  }

  function Interleave(b: Books, events: seq<Event>, calls: seq<Call>, nulls: NullOrder): World {
    if events == [] then World(b, map[])
    else Step(Interleave(b, events[..|events| - 1], calls, nulls), events[|events| - 1], calls, nulls)
  }

  /** Whole calls, one after the other. */
  function Serial(b: Books, order: seq<nat>, calls: seq<Call>, nulls: NullOrder): World
    requires forall k :: 0 <= k < |order| ==> order[k] < |calls|
  {
    if order == [] then World(b, map[])
    else
      var n := |order| - 1;
      var w := Serial(b, order[..n], calls, nulls);
      var outcome := Perform(w.books, calls[order[n]], nulls);
      World(outcome.books, w.replies[order[n] := outcome.reply])
  }

  /** Calls in the order in which they got their replies. */
  function AnswerOrder(b: Books, events: seq<Event>, calls: seq<Call>, nulls: NullOrder): (order: seq<nat>)
    ensures forall k :: 0 <= k < |order| ==> order[k] < |calls|
  {
    if events == [] then []
    else
      var n := |events| - 1;
      AnswerOrder(b, events[..n], calls, nulls)
      + Answers(Interleave(b, events[..n], calls, nulls), events[n], calls, nulls)
  }

  /** The call that the step answers, if it answers one. */
  function Answers(w: World, e: Event, calls: seq<Call>, nulls: NullOrder): (answered: seq<nat>)
    ensures forall k :: 0 <= k < |answered| ==> answered[k] < |calls|
  {
    if e.id in Step(w, e, calls, nulls).replies && e.id !in w.replies then [e.id] else []
  }

  /** A transaction repeats its call's early check, so its result does not depend on
      whether the early read happened, or when. */
  lemma {:induction false} TransactionRechecks(b: Books, c: Call, nulls: NullOrder)
    ensures Perform(b, c, nulls) == Transact(b, c, nulls)
  {
  }

  /** The step that answers a call does what the whole call would do, run alone at that point. */
  lemma {:induction false} AnsweredInOneStep(w: World, e: Event, calls: seq<Call>, nulls: NullOrder)
    requires e.id !in w.replies && e.id in Step(w, e, calls, nulls).replies
    ensures e.id < |calls|
    ensures var outcome := Perform(w.books, calls[e.id], nulls);
            Step(w, e, calls, nulls) == World(outcome.books, w.replies[e.id := outcome.reply])
  {
    TransactionRechecks(w.books, calls[e.id], nulls);
  }

  lemma {:induction false} SerialAppend(b: Books, order: seq<nat>, id: nat, calls: seq<Call>, nulls: NullOrder)
    requires (forall k :: 0 <= k < |order| ==> order[k] < |calls|) && id < |calls|
    ensures var w := Serial(b, order, calls, nulls);
            var outcome := Perform(w.books, calls[id], nulls);
            Serial(b, order + [id], calls, nulls) == World(outcome.books, w.replies[id := outcome.reply])
  {
    assert (order + [id])[..|order|] == order;
  }

  /** The world is that of the calls run in the order; each is answered once, and no other is. */
  ghost predicate IsSerial(b: Books, w: World, order: seq<nat>, calls: seq<Call>, nulls: NullOrder) {
    && (forall k :: 0 <= k < |order| ==> order[k] < |calls|)
    && w == Serial(b, order, calls, nulls)
    && (forall id :: id in order <==> id in w.replies)
    && (forall k, l :: 0 <= k < l < |order| ==> order[k] != order[l])
  }

  lemma {:induction false} StepIsSerial(b: Books, w: World, order: seq<nat>, e: Event, calls: seq<Call>,
                                        nulls: NullOrder, after: World)
    requires IsSerial(b, w, order, calls, nulls) && after == Step(w, e, calls, nulls)
    ensures IsSerial(b, after, order + Answers(w, e, calls, nulls), calls, nulls)
  {
    if e.id in after.replies && e.id !in w.replies {
      AnsweredInOneStep(w, e, calls, nulls);
      SerialAppend(b, order, e.id, calls, nulls);
    } else {
      assert order + [] == order && after == w;
    }
  }

  /** Every interleaving gives the books and all replies of the calls run one at a time in
      the order they were answered; each call is answered at most once. */
  lemma {:induction false} InterleavingIsSerial(b: Books, events: seq<Event>, calls: seq<Call>, nulls: NullOrder)
    ensures IsSerial(b, Interleave(b, events, calls, nulls), AnswerOrder(b, events, calls, nulls), calls, nulls)
  {
    if events != [] {
      var n := |events| - 1;
      InterleavingIsSerial(b, events[..n], calls, nulls);
      StepIsSerial(b, Interleave(b, events[..n], calls, nulls), AnswerOrder(b, events[..n], calls, nulls), events[n],
                   calls, nulls, Interleave(b, events, calls, nulls));
    }
  }

  lemma {:induction false} AnswersHaveEvents(b: Books, events: seq<Event>, calls: seq<Call>, nulls: NullOrder, id: nat)
    requires id in AnswerOrder(b, events, calls, nulls)
    ensures exists k :: 0 <= k < |events| && events[k].id == id
  {
    var n := |events| - 1;
    if events[n].id != id {
      AnswersHaveEvents(b, events[..n], calls, nulls, id);
      var k :| 0 <= k < |events[..n]| && events[..n][k].id == id;
      assert events[k].id == id;
    }
  }

  lemma {:induction false} AnswerOrderNext(b: Books, events: seq<Event>, n: nat, calls: seq<Call>, nulls: NullOrder)
    requires n < |events|
    ensures AnswerOrder(b, events[..n + 1], calls, nulls)
         == AnswerOrder(b, events[..n], calls, nulls)
            + Answers(Interleave(b, events[..n], calls, nulls), events[n], calls, nulls)
  {
    assert events[..n + 1][..n] == events[..n];
  }

  /** What has been answered first stays first. */
  lemma {:induction false} EarlierAnswersFirst(b: Books, events: seq<Event>, n: nat, calls: seq<Call>, nulls: NullOrder,
                                               early: seq<nat>)
    requires n <= |events| && early <= AnswerOrder(b, events[..n], calls, nulls)
    ensures early <= AnswerOrder(b, events, calls, nulls)
    decreases |events| - n
  {
    if n == |events| {
      assert events[..n] == events;
    } else {
      AnswerOrderNext(b, events, n, calls, nulls);
      PrefixGrows(early, AnswerOrder(b, events[..n], calls, nulls),
                  Answers(Interleave(b, events[..n], calls, nulls), events[n], calls, nulls),
                  AnswerOrder(b, events[..n + 1], calls, nulls));
      EarlierAnswersFirst(b, events, n + 1, calls, nulls, early);
    }
  }

  lemma {:induction false} PrefixGrows(early: seq<nat>, order: seq<nat>, more: seq<nat>, later: seq<nat>)
    requires early <= order && later == order + more
    ensures early <= later
  {
  }

  /** The serial order respects real time: a call answered before another begins comes first. */
  lemma {:induction false} AnswerOrderRespectsTime(b: Books, events: seq<Event>, k: nat, calls: seq<Call>,
                                                   nulls: NullOrder, first: nat, second: nat)
    requires k <= |events|
    requires first in AnswerOrder(b, events[..k], calls, nulls)
    requires forall i :: 0 <= i < k ==> events[i].id != second
    requires second in AnswerOrder(b, events, calls, nulls)
    ensures var order := AnswerOrder(b, events, calls, nulls);
            exists i, j :: 0 <= i < j < |order| && order[i] == first && order[j] == second
  {
    var early, order := AnswerOrder(b, events[..k], calls, nulls), AnswerOrder(b, events, calls, nulls);
    EarlierAnswersFirst(b, events, k, calls, nulls, early);
    if second in early {
      AnswersHaveEvents(b, events[..k], calls, nulls, second);
    }
    InEarlyThenLate(early, order, first, second);
  }

  lemma {:induction false} InEarlyThenLate(early: seq<nat>, order: seq<nat>, first: nat, second: nat)
    requires early <= order && first in early && second in order && second !in early
    ensures exists i, j :: 0 <= i < j < |order| && order[i] == first && order[j] == second
  {
    var late := order[|early|..];
    assert order == early + late;
    var i :| 0 <= i < |early| && early[i] == first;
    var j :| 0 <= j < |late| && late[j] == second;
    assert order[i] == first && order[|early| + j] == second;
  }

  /** Between transactions the books are sound, and no reservation is seen half-way. */
  lemma {:induction false} InterleavingIsSound(events: seq<Event>, calls: seq<Call>, nulls: NullOrder)
    ensures var books := Interleave(Empty, events, calls, nulls).books;
            && Sound(books)
            && forall job :: job in books.reservations ==> books.reservations[job].status !in {Reserving, Committing}
  {
    if events == [] {
      EmptyIsSound();
    } else {
      var n := |events| - 1;
      InterleavingIsSound(events[..n], calls, nulls);
      var before := Interleave(Empty, events[..n], calls, nulls);
      if events[n].id < |calls| {
        TransactKeepsSound(before.books, calls[events[n].id], nulls);
      }
    }
    var books := Interleave(Empty, events, calls, nulls).books;
    forall job | job in books.reservations ensures books.reservations[job].status !in {Reserving, Committing} {
      assert Documented(books, job);
    }
  }
}
