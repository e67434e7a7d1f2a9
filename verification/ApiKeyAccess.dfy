/** Which requests a key is accepted for, in terms of its document. */
module ApiKeyAccess {
  import opened Wrappers
  import opened ApiKeyCache

  /** The request is in order: the key has not passed its expiry, one of its scopes is the one asked
      for or "*" unless none is asked for or none is listed, and the organisation and the project it
      is bound to are those of the request. */
  predicate InOrder(key: Key, request: Request, now: Time) {
    && (key.expiresAt.None? || now <= key.expiresAt.value)
    && (request.scope.None? || request.scope.value == "" || key.scopes == []
        || exists i :: 0 <= i < |key.scopes| && (key.scopes[i] == "*" || key.scopes[i] == request.scope.value))
    && (key.org.None? || (request.org.Some? && request.org.value == key.org.value))
    && (key.project.None? || (request.project.Some? && request.project.value == key.project.value))
  }

  lemma {:induction false} InOrderIff(key: Key, request: Request, now: Time)
    ensures InOrder(key, request, now) <==> !Expired(key, now) && Allowed(key, request)
  {
    if request.scope.Some? {
      assert request.scope.value in key.scopes <==>
        exists i :: 0 <= i < |key.scopes| && key.scopes[i] == request.scope.value;
    }
  }

  lemma {:induction false} SameOrder(key: Key, other: Key, request: Request, now: Time)
    requires SameButUse(key, other)
    ensures InOrder(key, request, now) <==> InOrder(other, request, now)
  {
  }

  /** Cached or not, an active key is accepted exactly for the requests that are in order, and what
      is returned is its document, used now. */
  lemma {:induction false} AcceptedIff(s: Store, hash: string, request: Request, now: Time, clock: Time, id: nat,
                                       outcome: Outcome)
    requires Valid(s, clock) && id < |s.keys| && s.keys[id].hash == hash && s.keys[id].active
    requires outcome == Validate(s, hash, request, now, clock)
    ensures outcome.result.Some? <==> InOrder(s.keys[id], request, now)
    ensures outcome.result.Some? ==> outcome.result.value == Validated(id, s.keys[id].(lastUsed := Some(now)))
  {
    SameKeyFound(s.keys, hash, id);
    InOrderIff(s.keys[id], request, now);
    PositionIs(s.cache, hash);
    if Hit(s.cache, hash, clock).Some? {
      var e := s.cache[Position(s.cache, hash).value];
      assert Mirrors(e, s.keys);
      SameOrder(e.value.key, s.keys[id], request, now);
      InOrderIff(e.value.key, request, now);
    }
  }

  /** The cache holds an entry for the hash whose time to live has not run out. */
  predicate Cached(cache: seq<Entry>, hash: string, clock: Time) {
    exists i :: 0 <= i < |cache| && cache[i].hash == hash && clock < cache[i].deadline
  }

  lemma {:induction false} HitIff(cache: seq<Entry>, hash: string, clock: Time)
    requires Ordered(cache)
    ensures Hit(cache, hash, clock).Some? <==> Cached(cache, hash, clock)
  {
    PositionIs(cache, hash);
    if i :| 0 <= i < |cache| && cache[i].hash == hash && clock < cache[i].deadline {
      assert cache[i] in cache;
    }
  }

  /** What a validation writes: a time of use when the document was read and the request is in
      order, and an expired key's deactivation when the document was read; a cached validation
      writes nothing. */
  lemma {:induction false} ValidationWrites(s: Store, hash: string, request: Request, now: Time, clock: Time, id: nat,
                                            keys: seq<Key>)
    requires Valid(s, clock) && id < |s.keys| && s.keys[id].hash == hash && s.keys[id].active
    requires keys == Validate(s, hash, request, now, clock).store.keys
    ensures var key := s.keys[id];
            keys == if Cached(s.cache, hash, clock) then s.keys
                    else if InOrder(key, request, now) then s.keys[id := key.(lastUsed := Some(now))]
                    else if key.expiresAt.Some? && key.expiresAt.value < now then s.keys[id := key.(active := false)]
                    else s.keys
  {
    SameKeyFound(s.keys, hash, id);
    InOrderIff(s.keys[id], request, now);
    HitIff(s.cache, hash, clock);
  }

  lemma {:induction false} HitHasKey(s: Store, hash: string, clock: Time) returns (id: nat)
    requires Valid(s, clock) && Hit(s.cache, hash, clock).Some?
    ensures id < |s.keys| && s.keys[id].hash == hash && s.keys[id].active
  {
    PositionIs(s.cache, hash);
    var e := s.cache[Position(s.cache, hash).value];
    assert Mirrors(e, s.keys);
    id := e.value.id;
  }

  /** A hash without an active key is refused, whatever the cache holds. */
  lemma {:induction false} UnknownIsRefused(s: Store, hash: string, request: Request, now: Time, clock: Time)
    requires Valid(s, clock) && forall i :: 0 <= i < |s.keys| ==> !(s.keys[i].hash == hash && s.keys[i].active)
    ensures Validate(s, hash, request, now, clock).result == None
  {
    FindActiveIs(s.keys, hash);
    if Hit(s.cache, hash, clock).Some? {
      var id := HitHasKey(s, hash, clock);
    }
  }

  /** So it is in every run with clocks that never go back. */
  lemma {:induction false} AcceptedInRunIff(events: seq<Event>, e: Event, id: nat)
    requires ClocksAdvance(events + [e]) && e.call.ValidateKey?
    requires id < |Run(events).keys| && Run(events).keys[id].hash == e.call.hash && Run(events).keys[id].active
    ensures Perform(Run(events), e).result.Some? <==> InOrder(Run(events).keys[id], e.call.request, e.now)
  {
    var all := events + [e];
    assert forall i :: 0 <= i < |events| ==> all[i] == events[i];
    assert all[|events|] == e;
    RunsAgree(events, e.now, e.clock);
    AcceptedIff(Run(events), e.call.hash, e.call.request, e.now, e.clock, id, Perform(Run(events), e));
  }
}
