/** Validations that overlap other calls: the document is read, and only later cached. */
module ApiKeyRaces {
  import opened Wrappers
  import opened ApiKeyCache

  /** A validation that has read and admitted a document but not yet cached it. */
  datatype Pending = Pending(hash: string, value: Validated)

  datatype World = World(store: Store, pending: map<nat, Pending>)

  /** A step of validation number `id`, or a whole call of its own. */
  datatype Step =
    | Begin(id: nat, hash: string, request: Request, now: Time, clock: Time)
    | Finish(id: nat, clock: Time)
    | Whole(event: Event)

  /** The part of a validation up to and including its database queries. */
  function Began(w: World, id: nat, hash: string, request: Request, now: Time, clock: Time): World {
    var s := w.store;
    if id in w.pending || Hit(s.cache, hash, clock).Some? then w
    else
      var answer := PlainValidate(s.keys, hash, request, now);
      var cache := Without(s.cache, hash);
      match answer.result
      case Some(v) => World(Store(answer.keys, cache), w.pending[id := Pending(hash, v)])
      case None => w.(store := Store(answer.keys, if answer.keys == s.keys then cache else []))
  }

  /** Caching what was read. */
  function Finished(w: World, id: nat, clock: Time): World {
    if id !in w.pending then w
    else
      var p := w.pending[id];
      World(w.store.(cache := Remember(w.store.cache, p.hash, p.value, clock)), w.pending - {id})
  }

  function Take(w: World, step: Step): World {
    match step
    case Begin(id, hash, request, now, clock) => Began(w, id, hash, request, now, clock)
    case Finish(id, clock) => Finished(w, id, clock)
    case Whole(e) => w.(store := Perform(w.store, e).store)
  }

  function TakeAll(w: World, steps: seq<Step>): World {
    if steps == [] then w else Take(TakeAll(w, steps[..|steps| - 1]), steps[|steps| - 1])
  }

  /** A validation that begins and finishes at once is a whole validation that misses. */
  lemma {:induction false} UninterruptedIsWhole(w: World, id: nat, hash: string, request: Request, now: Time,
                                                clock: Time)
    requires id !in w.pending && Hit(w.store.cache, hash, clock) == None
    ensures Take(Take(w, Begin(id, hash, request, now, clock)), Finish(id, clock))
         == Take(w, Whole(Event(ValidateKey(hash, request), now, clock)))
  {
  }

  lemma {:induction false} TakeFollows(w: World, step: Step)
    ensures KeysFollow(w.store.keys, Take(w, step).store.keys)
  {
    match step
    case Begin(_, hash, request, now, _) => ValidateFollows(w.store.keys, hash, request, now);
    case Finish(_, _) =>
    case Whole(e) => PerformFollows(w.store, e, Perform(w.store, e).store.keys);
  }

  // ---------- How long a revoked key may be accepted ----------

  /** The clock readings at which a validation of the hash is cached. */
  function CachedAt(w: World, steps: seq<Step>, hash: string): seq<Time> {
    if steps == [] then []
    else
      var n := |steps| - 1;
      var before := TakeAll(w, steps[..n]);
      CachedAt(w, steps[..n], hash) + (if Caches(before, steps[n], hash) then [steps[n].clock] else [])
  }

  /** The step caches a validation of the hash that began earlier. */
  predicate Caches(w: World, step: Step, hash: string) {
    step.Finish? && step.id in w.pending && w.pending[step.id].hash == hash
  }

  /** Every entry of the hash was cached at one of the times. */
  predicate EntriesFrom(cache: seq<Entry>, hash: string, times: seq<Time>) {
    forall e :: e in cache && e.hash == hash ==> e.deadline - TimeToLive in times
  }

  lemma {:induction false} WithoutMembers(cache: seq<Entry>, hash: string)
    ensures forall e :: e in Without(cache, hash) ==> e in cache
  {
    PositionIs(cache, hash);
  }

  lemma {:induction false} RememberMembers(cache: seq<Entry>, hash: string, value: Validated, clock: Time)
    ensures forall e :: e in Remember(cache, hash, value, clock) ==>
      e in cache || e == Entry(hash, clock + TimeToLive, value)
  {
    WithoutMembers(cache, hash);
    var c := Without(cache, hash);
    assert forall e :: e in Evicted(c) ==> e in c;
  }

  lemma {:induction false} RevokedIsNotFound(keys: seq<Key>, hash: string)
    requires UniqueHashes(keys) && Revoked(keys, hash)
    ensures FindActive(keys, hash) == None
  {
    var i :| 0 <= i < |keys| && keys[i].hash == hash && !keys[i].active;
    SameKeyFound(keys, hash, i);
  }

  /** One step caches a revoked key only by finishing a validation begun before. */
  lemma {:induction false} TakeKeepsEntries(w: World, step: Step, hash: string, times: seq<Time>)
    requires UniqueHashes(w.store.keys) && Revoked(w.store.keys, hash) && EntriesFrom(w.store.cache, hash, times)
    ensures EntriesFrom(Take(w, step).store.cache, hash, times + (if Caches(w, step, hash) then [step.clock] else []))
  {
    RevokedIsNotFound(w.store.keys, hash);
    match step
    case Begin(_, h, _, _, _) => WithoutMembers(w.store.cache, h);
    case Finish(id, clock) =>
      if id in w.pending { RememberMembers(w.store.cache, w.pending[id].hash, w.pending[id].value, clock); }
    case Whole(e) => WholeKeepsEntries(w.store, e, hash, times);
  }

  lemma {:induction false} WholeKeepsEntries(s: Store, e: Event, hash: string, times: seq<Time>)
    requires FindActive(s.keys, hash) == None && EntriesFrom(s.cache, hash, times)
    ensures EntriesFrom(Perform(s, e).store.cache, hash, times)
  {
    if e.call.ValidateKey? {
      var h := e.call.hash;
      var cache := Without(s.cache, h);
      WithoutMembers(s.cache, h);
      var answer := PlainValidate(s.keys, h, e.call.request, e.now);
      if answer.result.Some? {
        WithoutMembers(cache, h);
        RememberMembers(cache, h, answer.result.value, e.clock);
      }
    }
  }

  lemma {:induction false} TakeAllKeepsEntries(w: World, steps: seq<Step>, hash: string)
    requires UniqueHashes(w.store.keys) && Revoked(w.store.keys, hash) && EntriesFrom(w.store.cache, hash, [])
    ensures var after := TakeAll(w, steps);
            UniqueHashes(after.store.keys) && Revoked(after.store.keys, hash)
            && EntriesFrom(after.store.cache, hash, CachedAt(w, steps, hash))
  {
    if steps != [] {
      var n := |steps| - 1;
      var before := TakeAll(w, steps[..n]);
      TakeAllKeepsEntries(w, steps[..n], hash);
      TakeFollows(before, steps[n]);
      RevokedFollows(before.store.keys, Take(before, steps[n]).store.keys, hash);
      TakeKeepsEntries(before, steps[n], hash, CachedAt(w, steps[..n], hash));
    }
  }

  /** The world right after its owner has revoked an active key. */
  predicate JustRevoked(w: World, hash: string) {
    UniqueHashes(w.store.keys) && Revoked(w.store.keys, hash) && w.store.cache == []
  }

  lemma {:induction false} RevokeGives(w: World, user: string, id: nat, now: Time, clock: Time)
    requires UniqueHashes(w.store.keys) && Owns(w.store.keys, user, id) && w.store.keys[id].active
    ensures JustRevoked(Take(w, Whole(Event(RevokeKey(user, id), now, clock))), w.store.keys[id].hash)
  {
    var after := Take(w, Whole(Event(RevokeKey(user, id), now, clock)));
    TakeFollows(w, Whole(Event(RevokeKey(user, id), now, clock)));
    assert after.store.keys == Revoke(w.store.keys, user, id);
    assert !after.store.keys[id].active && after.store.keys[id].hash == w.store.keys[id].hash;
    assert after.store.keys[id] != w.store.keys[id];
  }

  /** A revoked key is accepted at most for the time to live after a validation that had read it
      before the revocation was cached. */
  lemma {:induction false} StaleOnlyWithinWindow(
      w: World, steps: seq<Step>, hash: string, request: Request, now: Time, clock: Time)
    requires JustRevoked(w, hash)
    requires Validate(TakeAll(w, steps).store, hash, request, now, clock).result.Some?
    ensures exists f :: f in CachedAt(w, steps, hash) && clock < f + 120
  {
    var after := TakeAll(w, steps);
    TakeAllKeepsEntries(w, steps, hash);
    RevokedIsNotFound(after.store.keys, hash);
    var e := AcceptedHasEntry(after.store, hash, request, now, clock);
    assert e.deadline - TimeToLive in CachedAt(w, steps, hash);
  }

  lemma {:induction false} AcceptedHasEntry(s: Store, hash: string, request: Request, now: Time, clock: Time)
    returns (e: Entry)
    requires FindActive(s.keys, hash) == None && Validate(s, hash, request, now, clock).result.Some?
    ensures e in s.cache && e.hash == hash && clock < e.deadline
  {
    PositionIs(s.cache, hash);
    e := s.cache[Position(s.cache, hash).value];
  }

  /** Such validations were under way when the key was revoked. */
  lemma {:induction false} CachedWerePending(w: World, steps: seq<Step>, hash: string)
    requires UniqueHashes(w.store.keys) && Revoked(w.store.keys, hash)
    requires forall id :: id in w.pending ==> w.pending[id].hash != hash
    ensures CachedAt(w, steps, hash) == []
    ensures var after := TakeAll(w, steps);
            UniqueHashes(after.store.keys) && Revoked(after.store.keys, hash)
            && forall id :: id in after.pending ==> after.pending[id].hash != hash
  {
    if steps != [] {
      var n := |steps| - 1;
      var before := TakeAll(w, steps[..n]);
      CachedWerePending(w, steps[..n], hash);
      TakeFollows(before, steps[n]);
      RevokedFollows(before.store.keys, Take(before, steps[n]).store.keys, hash);
      RevokedIsNotFound(before.store.keys, hash);
    }
  }

  lemma {:induction false} LastEntryHits(cache: seq<Entry>, hash: string, value: Validated, clock: Time, later: Time)
    ensures Hit(Remember(cache, hash, value, clock), hash, later)
         == if later < clock + TimeToLive then Some(value) else None
  {
  }

  /** The window is exact: a validation cached after the revocation has the key accepted for just
      the time to live of 120 seconds. */
  lemma {:induction false} StaleIsAcceptedIff(w: World, id: nat, f: Time, request: Request, now: Time, clock: Time)
    requires UniqueHashes(w.store.keys) && id in w.pending && Revoked(w.store.keys, w.pending[id].hash)
    requires !Expired(w.pending[id].value.key, now) && Allowed(w.pending[id].value.key, request)
    ensures var after := Take(w, Finish(id, f));
            Validate(after.store, w.pending[id].hash, request, now, clock).result.Some? <==> clock < f + 120
  {
    var p := w.pending[id];
    LastEntryHits(w.store.cache, p.hash, p.value, f, clock);
    RevokedIsNotFound(w.store.keys, p.hash);
  }

  /** Such a world is reached from any active key: its validation reads the document, the owner
      revokes the key, and the validation is cached. */
  lemma {:induction false} StaleIsReachable(
      w: World, n: nat, user: string, id: nat, request: Request, now: Time, start: Time, f: Time, clock: Time)
    requires UniqueHashes(w.store.keys) && n !in w.pending && Owns(w.store.keys, user, id) && w.store.keys[id].active
    requires Hit(w.store.cache, w.store.keys[id].hash, start) == None
    requires !Expired(w.store.keys[id], now) && Allowed(w.store.keys[id], request)
    ensures var hash := w.store.keys[id].hash;
            var w1 := Take(w, Begin(n, hash, request, now, start));
            var w2 := Take(w1, Whole(Event(RevokeKey(user, id), now, start)));
            var w3 := Take(w2, Finish(n, f));
            Revoked(w3.store.keys, hash)
            && (Validate(w3.store, hash, request, now, clock).result.Some? <==> clock < f + 120)
  {
    var hash := w.store.keys[id].hash;
    var w1 := Take(w, Begin(n, hash, request, now, start));
    SameKeyFound(w.store.keys, hash, id);
    TakeFollows(w, Begin(n, hash, request, now, start));
    RevokeGives(w1, user, id, now, start);
    var w2 := Take(w1, Whole(Event(RevokeKey(user, id), now, start)));
    StaleIsAcceptedIff(w2, n, f, request, now, clock);
  }
}
