/** The API key store with its cache of validated keys. */
module ApiKeyCache {
  import opened Wrappers

  type Time = int

  const TimeToLive: Time := 120
  const MaxSize: nat := 2048

  datatype Key = Key(
    user: string, hash: string, name: string, scopes: seq<string>, expiresAt: Option<Time>,
    org: Option<string>, project: Option<string>, lastUsed: Option<Time>, active: bool)

  datatype Validated = Validated(id: nat, key: Key)
  datatype Entry = Entry(hash: string, deadline: Time, value: Validated)

  /** What a caller asks the key for. */
  datatype Request = Request(scope: Option<string>, org: Option<string>, project: Option<string>)

  /** The key documents, a document's id being its place, and the cache, oldest entry first. */
  datatype Store = Store(keys: seq<Key>, cache: seq<Entry>)

  predicate Expired(key: Key, now: Time) {
    key.expiresAt.Some? && now > key.expiresAt.value
  }

  predicate ScopeAllowed(key: Key, scope: Option<string>) {
    || scope == None || scope == Some("")
    || key.scopes == [] || "*" in key.scopes || scope.value in key.scopes
  }

  predicate BindingAllowed(key: Key, org: Option<string>, project: Option<string>) {
    (key.org.Some? ==> key.org == org) && (key.project.Some? ==> key.project == project)
  }

  predicate Allowed(key: Key, request: Request) {
    ScopeAllowed(key, request.scope) && BindingAllowed(key, request.org, request.project)
  }

  /** The active key with a hash. */
  function FindActive(keys: seq<Key>, hash: string): Option<nat> {
    if keys == [] then None
    else
      var n := |keys| - 1;
      if keys[n].hash == hash && keys[n].active then Some(n) else FindActive(keys[..n], hash)
  }

  predicate HashTaken(keys: seq<Key>, hash: string) {
    exists k :: k in keys && k.hash == hash
  }

  lemma {:induction false} FindActiveIs(keys: seq<Key>, hash: string)
    ensures match FindActive(keys, hash)
            case Some(i) => i < |keys| && keys[i].hash == hash && keys[i].active
            case None => forall k :: k in keys ==> !(k.hash == hash && k.active)
  {
    if keys != [] {
      var n := |keys| - 1;
      FindActiveIs(keys[..n], hash);
      Unsnoc(keys);
    }
  }

  // ---------- The store without a cache ----------

  datatype Answer = Answer(result: Option<Validated>, keys: seq<Key>)

  function PlainValidate(keys: seq<Key>, hash: string, request: Request, now: Time): Answer {
    FindActiveIs(keys, hash);
    match FindActive(keys, hash)
    case None => Answer(None, keys)
    case Some(id) =>
      var key := keys[id];
      if Expired(key, now) then Answer(None, keys[id := key.(active := false)])
      else if !Allowed(key, request) then Answer(None, keys)
      else
        var used := key.(lastUsed := Some(now));
        Answer(Some(Validated(id, used)), keys[id := used])
  }

  /** Insert a new key; a taken hash breaks the unique index. */
  function Create(keys: seq<Key>, key: Key): seq<Key> {
    if HashTaken(keys, key.hash) then keys else keys + [key.(lastUsed := None, active := true)]
  }

  predicate Owns(keys: seq<Key>, user: string, id: nat) {
    id < |keys| && keys[id].user == user
  }

  function Revoke(keys: seq<Key>, user: string, id: nat): seq<Key> {
    if Owns(keys, user, id) then keys[id := keys[id].(active := false)] else keys
  }

  function Rename(keys: seq<Key>, user: string, id: nat, name: string): seq<Key> {
    if Owns(keys, user, id) then keys[id := keys[id].(name := name)] else keys
  }

  // ---------- The cache ----------

  function Position(cache: seq<Entry>, hash: string): Option<nat> {
    if cache == [] then None
    else
      var n := |cache| - 1;
      if cache[n].hash == hash then Some(n) else Position(cache[..n], hash)
  }

  lemma {:induction false} PositionIs(cache: seq<Entry>, hash: string)
    ensures match Position(cache, hash)
            case Some(i) => i < |cache| && cache[i].hash == hash
            case None => forall e :: e in cache ==> e.hash != hash
  {
    if cache != [] {
      var n := |cache| - 1;
      PositionIs(cache[..n], hash);
      Unsnoc(cache);
    }
  }

  function Without(cache: seq<Entry>, hash: string): seq<Entry> {
    PositionIs(cache, hash);
    match Position(cache, hash)
    case None => cache
    case Some(i) => cache[..i] + cache[i + 1..]
  }

  /** The cached validation of a hash while its time to live runs. */
  function Hit(cache: seq<Entry>, hash: string, clock: Time): Option<Validated> {
    PositionIs(cache, hash);
    match Position(cache, hash)
    case Some(i) => if cache[i].deadline <= clock then None else Some(cache[i].value)
    case None => None
  }

  function Evicted(cache: seq<Entry>): seq<Entry> {
    if |cache| >= MaxSize then cache[|cache| - MaxSize + 1..] else cache
  }

  function Remember(cache: seq<Entry>, hash: string, value: Validated, clock: Time): seq<Entry> {
    Evicted(Without(cache, hash)) + [Entry(hash, clock + TimeToLive, value)]
  }

  datatype Outcome = Outcome(result: Option<Validated>, store: Store)

  /** `validate_api_key`: `now` is the wall clock, `clock` the monotonic one. */
  function Validate(s: Store, hash: string, request: Request, now: Time, clock: Time): Outcome {
    match Hit(s.cache, hash, clock)
    case Some(v) =>
      if Expired(v.key, now) then Outcome(None, s.(cache := []))
      else if !Allowed(v.key, request) then Outcome(None, s)
      else Outcome(Some(v.(key := v.key.(lastUsed := Some(now)))), s)
    case None =>
      var cache := Without(s.cache, hash);
      var answer := PlainValidate(s.keys, hash, request, now);
      if answer.result.Some? then
        Outcome(answer.result, Store(answer.keys, Remember(cache, hash, answer.result.value, clock)))
      else
        Outcome(None, Store(answer.keys, if answer.keys == s.keys then cache else []))
  }

  // ---------- The store ----------

  class APIKeyStore {
    var keys: seq<Key>
    var cache: seq<Entry>

    constructor ()
      ensures Contents() == Store([], [])
    {
      keys, cache := [], [];
    }

    function Contents(): Store
      reads this
    {
      Store(keys, cache)
    }

    method ClearValidationCache()
      modifies this
      ensures Contents() == old(Contents()).(cache := [])
    {
      cache := [];
    }

    method GetCachedValidation(hash: string, clock: Time) returns (r: Option<Validated>)
      modifies this
      ensures r == Hit(old(cache), hash, clock)
      ensures Contents() == old(Contents()).(cache := if r.Some? then old(cache) else Without(old(cache), hash))
    {
      PositionIs(cache, hash);
      match Position(cache, hash) {
        case None => return None;
        case Some(i) =>
          if cache[i].deadline <= clock {
            cache := Without(cache, hash);
            return None;
          }
          return Some(cache[i].value);
      }
    }

    method CacheValidation(hash: string, value: Validated, clock: Time)
      modifies this
      ensures Contents() == old(Contents()).(cache := Remember(old(cache), hash, value, clock))
    {
      cache := Without(cache, hash);
      ghost var whole := cache;
      while |cache| >= MaxSize
        invariant keys == old(keys)
        invariant |cache| <= |whole| && cache == whole[|whole| - |cache|..]
        invariant |whole| >= MaxSize ==> |cache| >= MaxSize - 1
        invariant |whole| < MaxSize ==> |cache| == |whole|
      {
        cache := cache[1..];
      }
      cache := cache + [Entry(hash, clock + TimeToLive, value)];
    }

    method DeactivateExpiredKey(id: nat)
      requires id < |keys|
      modifies this
      ensures Contents() == Store(old(keys)[id := old(keys)[id].(active := false)], [])
    {
      ClearValidationCache();
      keys := keys[id := keys[id].(active := false)];
    }

    method CreateApiKey(key: Key) returns (created: bool)
      modifies this
      ensures created <==> forall i :: 0 <= i < old(|keys|) ==> old(keys)[i].hash != key.hash
      ensures keys == old(keys) + if created then [key.(lastUsed := None, active := true)] else []
      ensures Contents() == old(Contents()).(keys := Create(old(keys), key))
    {
      if exists i :: 0 <= i < |keys| && keys[i].hash == key.hash {
        return false;
      }
      keys := keys + [key.(lastUsed := None, active := true)];
      return true;
    }

    method ValidateApiKey(hash: string, request: Request, now: Time, clock: Time) returns (r: Option<Validated>)
      modifies this
      ensures Outcome(r, Contents()) == Validate(old(Contents()), hash, request, now, clock)
    {
      var hit := GetCachedValidation(hash, clock);
      if hit.Some? {
        var v := hit.value;
        if Expired(v.key, now) {
          ClearValidationCache();
          return None;
        }
        if !ScopeAllowed(v.key, request.scope) { return None; }
        if !BindingAllowed(v.key, request.org, request.project) { return None; }
        return Some(v.(key := v.key.(lastUsed := Some(now))));
      }
      FindActiveIs(keys, hash);
      var found := FindActive(keys, hash);
      if found.None? { return None; }
      var id := found.value;
      var key := keys[id];
      if Expired(key, now) {
        assert keys[id := key.(active := false)][id] != keys[id];
        DeactivateExpiredKey(id);
        return None;
      }
      if !ScopeAllowed(key, request.scope) { return None; }
      if !BindingAllowed(key, request.org, request.project) { return None; }
      key := key.(lastUsed := Some(now));
      keys := keys[id := key];
      CacheValidation(hash, Validated(id, key), clock);
      return Some(Validated(id, key));
    }

    /** True when the update changed a document, and only then is the cache cleared. */
    method RevokeApiKey(user: string, id: nat) returns (success: bool)
      modifies this
      ensures success <==> id < old(|keys|) && old(keys)[id].user == user && old(keys)[id].active
      ensures success ==> keys == old(keys)[id := old(keys)[id].(active := false)] && cache == []
      ensures !success ==> Contents() == old(Contents())
      ensures Contents() == Changed(old(Contents()), Revoke(old(keys), user, id))
    {
      success := id < |keys| && keys[id].user == user && keys[id].active;
      if success {
        assert Revoke(keys, user, id)[id] != keys[id];
        keys := keys[id := keys[id].(active := false)];
        ClearValidationCache();
      } else {
        assert Revoke(keys, user, id) == keys;
      }
    }

    method UpdateApiKeyName(user: string, id: nat, name: string) returns (success: bool)
      modifies this
      ensures success <==> id < old(|keys|) && old(keys)[id].user == user && old(keys)[id].name != name
      ensures success ==> keys == old(keys)[id := old(keys)[id].(name := name)] && cache == []
      ensures !success ==> Contents() == old(Contents())
      ensures Contents() == Changed(old(Contents()), Rename(old(keys), user, id, name))
    {
      success := id < |keys| && keys[id].user == user && keys[id].name != name;
      if success {
        assert Rename(keys, user, id, name)[id] != keys[id];
        keys := keys[id := keys[id].(name := name)];
        ClearValidationCache();
      } else {
        assert Rename(keys, user, id, name) == keys;
      }
    }
  }

  function Changed(s: Store, keys: seq<Key>): Store {
    if keys == s.keys then s else Store(keys, [])
  }

  // ---------- What the cache keeps ----------

  predicate SameButUse(a: Key, b: Key) {
    a.(lastUsed := b.lastUsed) == b
  }

  /** A cached validation is that of an active key as the database has it. */
  predicate Mirrors(e: Entry, keys: seq<Key>) {
    && e.value.id < |keys|
    && e.value.key.hash == e.hash
    && keys[e.value.id].active
    && SameButUse(e.value.key, keys[e.value.id])
  }

  predicate UniqueHashes(keys: seq<Key>) {
    forall i, j :: 0 <= i < j < |keys| ==> keys[i].hash != keys[j].hash
  }

  /** Oldest deadline first, and no hash twice. */
  predicate Ordered(cache: seq<Entry>) {
    forall i, j :: 0 <= i < j < |cache| ==> cache[i].deadline <= cache[j].deadline && cache[i].hash != cache[j].hash
  }

  predicate MirrorsAll(cache: seq<Entry>, keys: seq<Key>) {
    forall e :: e in cache ==> Mirrors(e, keys)
  }

  predicate DueBy(cache: seq<Entry>, latest: Time) {
    forall e :: e in cache ==> e.deadline <= latest
  }

  predicate Valid(s: Store, clock: Time) {
    && UniqueHashes(s.keys)
    && MirrorsAll(s.cache, s.keys)
    && Ordered(s.cache)
    && DueBy(s.cache, clock + TimeToLive)
    && |s.cache| <= MaxSize
  }

  lemma {:induction false} WithoutOne(cache: seq<Entry>, i: nat)
    requires Ordered(cache) && i < |cache|
    ensures var c := cache[..i] + cache[i + 1..];
            Ordered(c) && forall e :: e in c <==> e in cache && e.hash != cache[i].hash
  {
    var c := cache[..i] + cache[i + 1..];
    assert forall j :: 0 <= j < |c| ==> c[j] == cache[if j < i then j else j + 1];
    forall e | e in cache && e.hash != cache[i].hash ensures e in c {
      var j :| 0 <= j < |cache| && cache[j] == e;
      assert c[if j < i then j else j - 1] == e;
    }
  }

  lemma {:induction false} WithoutIs(cache: seq<Entry>, hash: string)
    requires Ordered(cache)
    ensures var c := Without(cache, hash);
            Ordered(c) && |c| <= |cache| && forall e :: e in c <==> e in cache && e.hash != hash
  {
    PositionIs(cache, hash);
    if Position(cache, hash).Some? { WithoutOne(cache, Position(cache, hash).value); }
  }

  lemma {:induction false} EvictedIs(cache: seq<Entry>)
    requires Ordered(cache)
    ensures var c := Evicted(cache);
            Ordered(c) && |c| < MaxSize && forall e :: e in c ==> e in cache
  {
  }

  lemma {:induction false} AddedLast(cache: seq<Entry>, e: Entry)
    requires Ordered(cache) && DueBy(cache, e.deadline) && forall x :: x in cache ==> x.hash != e.hash
    ensures Ordered(cache + [e]) && DueBy(cache + [e], e.deadline)
  {
  }

  lemma {:induction false} RememberKeeps(cache: seq<Entry>, keys: seq<Key>, hash: string, value: Validated, clock: Time)
    requires Ordered(cache) && DueBy(cache, clock + TimeToLive) && MirrorsAll(cache, keys)
    requires Mirrors(Entry(hash, clock + TimeToLive, value), keys)
    ensures var c := Remember(cache, hash, value, clock);
            Ordered(c) && DueBy(c, clock + TimeToLive) && |c| <= MaxSize && MirrorsAll(c, keys)
  {
    WithoutIs(cache, hash);
    EvictedIs(Without(cache, hash));
    AddedLast(Evicted(Without(cache, hash)), Entry(hash, clock + TimeToLive, value));
  }

  lemma {:induction false} InSuffix(cache: seq<Entry>, k: nat, j: nat)
    requires k <= j < |cache|
    ensures cache[j] in cache[k..]
  {
    assert cache[k..][j - k] == cache[j];
  }

  /** The cache stays within its maximum, and what it gives up has the earliest deadlines. */
  lemma {:induction false} EvictsEarliest(cache: seq<Entry>, hash: string, value: Validated, clock: Time, gone: Entry,
                                          kept: Entry)
    requires Ordered(cache) && DueBy(cache, clock + TimeToLive)
    requires gone in cache && gone.hash != hash && gone !in Remember(cache, hash, value, clock)
    requires kept in Remember(cache, hash, value, clock)
    ensures gone.deadline <= kept.deadline && |Remember(cache, hash, value, clock)| == 2048
  {
    WithoutIs(cache, hash);
    var c := Without(cache, hash);
    assert forall e :: e in Evicted(c) ==> e in Remember(cache, hash, value, clock);
    EvictedIsEarlier(c, gone);
  }

  lemma {:induction false} EvictedIsEarlier(c: seq<Entry>, gone: Entry)
    requires Ordered(c) && gone in c && gone !in Evicted(c)
    ensures |c| >= MaxSize && forall e :: e in Evicted(c) ==> gone.deadline <= e.deadline
  {
    var j :| 0 <= j < |c| && c[j] == gone;
    assert |c| >= MaxSize;
    var k := |c| - MaxSize + 1;
    forall m: nat | k <= m < |c| ensures c[m] in c[k..] { InSuffix(c, k, m); }
  }

  // ---------- Runs ----------

  datatype Call =
    | CreateKey(key: Key)
    | ValidateKey(hash: string, request: Request)
    | RevokeKey(user: string, id: nat)
    | RenameKey(user: string, id: nat, name: string)

  /** A call with the readings of the wall clock and the monotonic clock it sees. */
  datatype Event = Event(call: Call, now: Time, clock: Time)

  function Perform(s: Store, e: Event): Outcome {
    match e.call
    case CreateKey(key) => Outcome(None, s.(keys := Create(s.keys, key)))
    case ValidateKey(hash, request) => Validate(s, hash, request, e.now, e.clock)
    case RevokeKey(user, id) => Outcome(None, Changed(s, Revoke(s.keys, user, id)))
    case RenameKey(user, id, name) => Outcome(None, Changed(s, Rename(s.keys, user, id, name)))
  }

  function PlainPerform(keys: seq<Key>, e: Event): Answer {
    match e.call
    case CreateKey(key) => Answer(None, Create(keys, key))
    case ValidateKey(hash, request) => PlainValidate(keys, hash, request, e.now)
    case RevokeKey(user, id) => Answer(None, Revoke(keys, user, id))
    case RenameKey(user, id, name) => Answer(None, Rename(keys, user, id, name))
  }

  function Run(events: seq<Event>): Store {
    if events == [] then Store([], []) else Perform(Run(events[..|events| - 1]), events[|events| - 1]).store
  }

  function PlainRun(events: seq<Event>): seq<Key> {
    if events == [] then [] else PlainPerform(PlainRun(events[..|events| - 1]), events[|events| - 1]).keys
  }

  predicate ClocksAdvance(events: seq<Event>) {
    forall i, j :: 0 <= i < j < |events| ==> events[i].now <= events[j].now && events[i].clock <= events[j].clock
  }

  /** The two databases agree but for times of use and for keys that have expired, which a
      cache hit leaves active. */
  predicate Agree(a: Key, b: Key, now: Time) {
    a.(lastUsed := b.lastUsed, active := b.active) == b && (a.active != b.active ==> Expired(a, now))
  }

  predicate AgreeAll(keys: seq<Key>, plain: seq<Key>, now: Time) {
    |keys| == |plain| && forall i :: 0 <= i < |keys| ==> Agree(keys[i], plain[i], now)
  }

  lemma {:induction false} CreateKeepsAgreement(keys: seq<Key>, plain: seq<Key>, key: Key, now: Time)
    requires AgreeAll(keys, plain, now) && UniqueHashes(keys)
    ensures AgreeAll(Create(keys, key), Create(plain, key), now) && UniqueHashes(Create(keys, key))
  {
    if k :| k in keys && k.hash == key.hash {
      var i :| 0 <= i < |keys| && keys[i] == k;
      assert plain[i] in plain;
    }
    if k :| k in plain && k.hash == key.hash {
      var i :| 0 <= i < |plain| && plain[i] == k;
      assert keys[i] in keys;
    }
    if !HashTaken(keys, key.hash) {
      forall i | 0 <= i < |keys| ensures keys[i].hash != key.hash { assert keys[i] in keys; }
    }
  }

  /** The key with a hash, active or not. */
  lemma {:induction false} SameKeyFound(keys: seq<Key>, hash: string, id: nat)
    requires UniqueHashes(keys) && id < |keys| && keys[id].hash == hash
    ensures FindActive(keys, hash) == if keys[id].active then Some(id) else None
  {
    FindActiveIs(keys, hash);
    if FindActive(keys, hash).None? { assert keys[id] in keys; }
  }

  lemma {:induction false} AgreeOnUniqueness(keys: seq<Key>, plain: seq<Key>, now: Time)
    requires AgreeAll(keys, plain, now) && UniqueHashes(keys)
    ensures UniqueHashes(plain)
  {
    assert forall i :: 0 <= i < |keys| ==> keys[i].hash == plain[i].hash;
  }

  /** One validation of agreeing databases, neither cached. */
  lemma {:induction false} PlainValidationsAgree(keys: seq<Key>, plain: seq<Key>, hash: string, request: Request,
                                                 now: Time)
    requires AgreeAll(keys, plain, now) && UniqueHashes(keys)
    ensures PlainValidate(keys, hash, request, now).result == PlainValidate(plain, hash, request, now).result
    ensures AgreeAll(PlainValidate(keys, hash, request, now).keys, PlainValidate(plain, hash, request, now).keys, now)
  {
    AgreeOnUniqueness(keys, plain, now);
    FindActiveIs(keys, hash);
    FindActiveIs(plain, hash);
    match FindActive(keys, hash)
    case Some(id) =>
      assert Agree(keys[id], plain[id], now);
      SameKeyFound(plain, hash, id);
    case None =>
      match FindActive(plain, hash)
      case None =>
      case Some(id) =>
        assert Agree(keys[id], plain[id], now);
        SameKeyFound(keys, hash, id);
  }

  /** A cache hit answers as the database without a cache would. */
  lemma {:induction false} HitAgrees(s: Store, plain: seq<Key>, hash: string, request: Request, now: Time, clock: Time)
    requires Valid(s, clock) && AgreeAll(s.keys, plain, now) && Hit(s.cache, hash, clock).Some?
    ensures Validate(s, hash, request, now, clock).result == PlainValidate(plain, hash, request, now).result
    ensures AgreeAll(Validate(s, hash, request, now, clock).store.keys, PlainValidate(plain, hash, request, now).keys,
                     now)
    ensures Valid(Validate(s, hash, request, now, clock).store, clock)
  {
    PositionIs(s.cache, hash);
    var e := s.cache[Position(s.cache, hash).value];
    assert Mirrors(e, s.keys);
    var id := e.value.id;
    assert Agree(s.keys[id], plain[id], now);
    AgreeOnUniqueness(s.keys, plain, now);
    SameKeyFound(plain, hash, id);
  }

  lemma {:induction false} MissIsPlain(s: Store, hash: string, request: Request, now: Time, clock: Time)
    requires Hit(s.cache, hash, clock).None?
    ensures var outcome, answer := Validate(s, hash, request, now, clock), PlainValidate(s.keys, hash, request, now);
            && outcome.result == answer.result && outcome.store.keys == answer.keys
            && outcome.store.cache == CacheAfter(s, hash, answer, clock)
  {
  }

  function CacheAfter(s: Store, hash: string, answer: Answer, clock: Time): seq<Entry> {
    match answer.result
    case Some(v) => Remember(Without(s.cache, hash), hash, v, clock)
    case None => if answer.keys == s.keys then Without(s.cache, hash) else []
  }

  lemma {:induction false} MissKeepsValid(s: Store, hash: string, request: Request, now: Time, clock: Time)
    requires Valid(s, clock) && Hit(s.cache, hash, clock).None?
    ensures var answer := PlainValidate(s.keys, hash, request, now);
            Valid(Store(answer.keys, CacheAfter(s, hash, answer, clock)), clock)
  {
    WithoutIs(s.cache, hash);
    FindActiveIs(s.keys, hash);
    var cache := Without(s.cache, hash);
    var answer := PlainValidate(s.keys, hash, request, now);
    match answer.result
    case None =>
    case Some(v) =>
      UseKeepsMirrors(cache, s.keys, v.id, now);
      RememberKeeps(cache, answer.keys, hash, v, clock);
  }

  /** A miss leaves the databases agreeing, with the same answer and a valid cache. */
  lemma {:induction false} MissAgrees(s: Store, plain: seq<Key>, hash: string, request: Request, now: Time, clock: Time)
    requires Valid(s, clock) && AgreeAll(s.keys, plain, now) && Hit(s.cache, hash, clock).None?
    ensures Validate(s, hash, request, now, clock).result == PlainValidate(plain, hash, request, now).result
    ensures AgreeAll(Validate(s, hash, request, now, clock).store.keys, PlainValidate(plain, hash, request, now).keys,
                     now)
    ensures Valid(Validate(s, hash, request, now, clock).store, clock)
  {
    MissIsPlain(s, hash, request, now, clock);
    PlainValidationsAgree(s.keys, plain, hash, request, now);
    MissKeepsValid(s, hash, request, now, clock);
  }

  lemma {:induction false} UseKeepsMirrors(cache: seq<Entry>, keys: seq<Key>, id: nat, now: Time)
    requires MirrorsAll(cache, keys) && UniqueHashes(keys) && id < |keys|
    ensures var keys' := keys[id := keys[id].(lastUsed := Some(now))];
            MirrorsAll(cache, keys') && UniqueHashes(keys')
  {
    var keys' := keys[id := keys[id].(lastUsed := Some(now))];
    forall e | e in cache ensures Mirrors(e, keys') {
      assert Mirrors(e, keys);
    }
  }

  lemma {:induction false} CreateKeepsMirrors(cache: seq<Entry>, keys: seq<Key>, key: Key)
    requires MirrorsAll(cache, keys)
    ensures MirrorsAll(cache, Create(keys, key))
  {
    forall e | e in cache ensures Mirrors(e, Create(keys, key)) {
      assert Mirrors(e, keys);
    }
  }

  lemma {:induction false} LaterKeepsAgreement(keys: seq<Key>, plain: seq<Key>, earlier: Time, now: Time)
    requires AgreeAll(keys, plain, earlier) && earlier <= now
    ensures AgreeAll(keys, plain, now)
  {
    forall i | 0 <= i < |keys| ensures Agree(keys[i], plain[i], now) {
      assert Agree(keys[i], plain[i], earlier);
    }
  }

  lemma {:induction false} ChangeKeepsAgreement(keys: seq<Key>, plain: seq<Key>, user: string, id: nat, name: string,
                                                now: Time)
    requires AgreeAll(keys, plain, now) && UniqueHashes(keys)
    ensures AgreeAll(Revoke(keys, user, id), Revoke(plain, user, id), now) && UniqueHashes(Revoke(keys, user, id))
    ensures AgreeAll(Rename(keys, user, id, name), Rename(plain, user, id, name), now)
            && UniqueHashes(Rename(keys, user, id, name))
  {
    if id < |keys| { assert Agree(keys[id], plain[id], now); }
  }

  /** One call, made with and without the cache. */
  lemma {:induction false} PerformAgrees(s: Store, plain: seq<Key>, e: Event)
    requires Valid(s, e.clock) && AgreeAll(s.keys, plain, e.now)
    ensures Perform(s, e).result == PlainPerform(plain, e).result
    ensures Valid(Perform(s, e).store, e.clock)
    ensures AgreeAll(Perform(s, e).store.keys, PlainPerform(plain, e).keys, e.now)
  {
    match e.call
    case CreateKey(key) =>
      CreateKeepsAgreement(s.keys, plain, key, e.now);
      CreateKeepsMirrors(s.cache, s.keys, key);
    case ValidateKey(hash, request) =>
      if Hit(s.cache, hash, e.clock).Some? {
        HitAgrees(s, plain, hash, request, e.now, e.clock);
      } else {
        MissAgrees(s, plain, hash, request, e.now, e.clock);
      }
    case RevokeKey(user, id) => ChangeKeepsAgreement(s.keys, plain, user, id, "", e.now);
    case RenameKey(user, id, name) => ChangeKeepsAgreement(s.keys, plain, user, id, name, e.now);
  }

  lemma {:induction false} RunsAgree(events: seq<Event>, now: Time, clock: Time)
    requires ClocksAdvance(events)
    requires events != [] ==> events[|events| - 1].now <= now && events[|events| - 1].clock <= clock
    ensures Valid(Run(events), clock) && AgreeAll(Run(events).keys, PlainRun(events), now)
  {
    if events != [] {
      var n := |events| - 1;
      var e := events[n];
      RunsAgree(events[..n], e.now, e.clock);
      PerformAgrees(Run(events[..n]), PlainRun(events[..n]), e);
      LaterKeepsAgreement(Run(events).keys, PlainRun(events), e.now, now);
    }
  }

  /** In every run with clocks that never go back, a validation gives the result, the returned
      document included, that a store without a cache would give after the same calls. */
  lemma {:induction false} CacheIsTransparent(events: seq<Event>, e: Event)
    requires ClocksAdvance(events + [e])
    ensures Perform(Run(events), e).result == PlainPerform(PlainRun(events), e).result
    ensures |Run(events).cache| <= 2048 && Ordered(Run(events).cache)
  {
    var all := events + [e];
    assert forall i :: 0 <= i < |events| ==> all[i] == events[i];
    assert all[|events|] == e;
    RunsAgree(events, e.now, e.clock);
    PerformAgrees(Run(events), PlainRun(events), e);
  }

  predicate Revoked(keys: seq<Key>, hash: string) {
    exists i :: 0 <= i < |keys| && keys[i].hash == hash && !keys[i].active
  }

  /** Keys keep their hashes, and none becomes active again. */
  predicate KeysFollow(keys: seq<Key>, keys': seq<Key>) {
    && |keys| <= |keys'|
    && (forall i :: 0 <= i < |keys| ==> keys'[i].hash == keys[i].hash && (keys'[i].active ==> keys[i].active))
    && (UniqueHashes(keys) ==> UniqueHashes(keys'))
  }

  lemma {:induction false} CreateFollows(keys: seq<Key>, key: Key)
    ensures KeysFollow(keys, Create(keys, key))
  {
    if !HashTaken(keys, key.hash) {
      forall i | 0 <= i < |keys| ensures keys[i].hash != key.hash { assert keys[i] in keys; }
    }
  }

  lemma {:induction false} ValidateFollows(keys: seq<Key>, hash: string, request: Request, now: Time)
    ensures KeysFollow(keys, PlainValidate(keys, hash, request, now).keys)
  {
    FindActiveIs(keys, hash);
  }

  lemma {:induction false} PlainFollows(keys: seq<Key>, e: Event)
    ensures KeysFollow(keys, PlainPerform(keys, e).keys)
  {
    match e.call
    case CreateKey(key) => CreateFollows(keys, key);
    case ValidateKey(hash, request) => ValidateFollows(keys, hash, request, e.now);
    case RevokeKey(_, _) =>
    case RenameKey(_, _, _) =>
  }

  lemma {:induction false} PerformFollows(s: Store, e: Event, keys: seq<Key>)
    requires keys == Perform(s, e).store.keys
    ensures KeysFollow(s.keys, keys)
  {
    PlainFollows(s.keys, e);
    assert keys == s.keys || keys == PlainPerform(s.keys, e).keys;
  }

  lemma {:induction false} RevokedFollows(keys: seq<Key>, keys': seq<Key>, hash: string)
    requires KeysFollow(keys, keys') && Revoked(keys, hash)
    ensures Revoked(keys', hash)
  {
    var i :| 0 <= i < |keys| && keys[i].hash == hash && !keys[i].active;
    assert keys'[i].hash == hash && !keys'[i].active;
  }

  lemma {:induction false} RunKeepsRevoked(events: seq<Event>, k: nat, hash: string)
    requires k <= |events| && Revoked(Run(events[..k]).keys, hash)
    ensures Revoked(Run(events).keys, hash)
  {
    if k == |events| {
      assert events[..k] == events;
    } else {
      var n := |events| - 1;
      assert events[..n][..k] == events[..k];
      RunKeepsRevoked(events[..n], k, hash);
      LastKeepsRevoked(events, hash);
    }
  }

  lemma {:induction false} LastKeepsRevoked(events: seq<Event>, hash: string)
    requires events != [] && Revoked(Run(events[..|events| - 1]).keys, hash)
    ensures Revoked(Run(events).keys, hash)
  {
    var before := Run(events[..|events| - 1]);
    PerformFollows(before, events[|events| - 1], Run(events).keys);
    RevokedFollows(before.keys, Run(events).keys, hash);
  }

  /** Once its owner has revoked a key it is refused for ever, whatever the cache held. */
  lemma {:induction false} RevokedIsRefused(before: seq<Event>, revoke: Event, after: seq<Event>, e: Event)
    requires ClocksAdvance(before + [revoke] + after + [e])
    requires revoke.call.RevokeKey? && Owns(Run(before).keys, revoke.call.user, revoke.call.id)
    requires e.call.ValidateKey? && e.call.hash == Run(before).keys[revoke.call.id].hash
    ensures Perform(Run(before + [revoke] + after), e).result == None
  {
    var hash, id := e.call.hash, revoke.call.id;
    var all := before + [revoke] + after;
    assert forall i :: 0 <= i < |all| ==> (all + [e])[i] == all[i];
    assert (all + [e])[|all|] == e;
    assert (before + [revoke])[..|before|] == before;
    assert Run(before + [revoke]).keys[id].hash == hash && !Run(before + [revoke]).keys[id].active;
    assert all[..|before| + 1] == before + [revoke];
    RunKeepsRevoked(all, |before| + 1, hash);
    RunsAgree(all, e.now, e.clock);
    RevokedHasNoHit(Run(all), hash, e.clock);
  }

  lemma {:induction false} RevokedHasNoHit(s: Store, hash: string, clock: Time)
    requires Valid(s, clock) && Revoked(s.keys, hash)
    ensures Hit(s.cache, hash, clock) == None && FindActive(s.keys, hash) == None
  {
    var i :| 0 <= i < |s.keys| && s.keys[i].hash == hash && !s.keys[i].active;
    SameKeyFound(s.keys, hash, i);
    PositionIs(s.cache, hash);
    forall x | x in s.cache ensures x.hash != hash { assert Mirrors(x, s.keys); }
  }
}
