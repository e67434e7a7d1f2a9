/** The in-process rate limiter: a sliding window of recent requests for every key. */
module RateLimiter {

  datatype Request = Request(key: string, time: real)
  datatype Verdict = Verdict(allowed: bool, remaining: int)

  /** `[t for t in times if t > cutoff]` */
  function Since(times: seq<real>, cutoff: real): seq<real> {
    if times == [] then []
    else
      var n := |times| - 1;
      if times[n] > cutoff then Since(times[..n], cutoff) + [times[n]] else Since(times[..n], cutoff)
  }

  function HitsOf(hits: map<string, seq<real>>, key: string): seq<real> {
    if key in hits then hits[key] else []
  }

  datatype Checked = Checked(verdict: Verdict, hits: map<string, seq<real>>)

  function Check(max: int, window: real, hits: map<string, seq<real>>, r: Request): Checked {
    var pruned := Pruned(hits, r.key, r.time - window);
    var recent := HitsOf(pruned, r.key);
    if |recent| >= max then Checked(Verdict(false, 0), pruned)
    else Checked(Verdict(true, max - |recent| - 1), pruned[r.key := recent + [r.time]])
  }

  function Pruned(hits: map<string, seq<real>>, key: string, cutoff: real): map<string, seq<real>> {
    hits[key := Since(HitsOf(hits, key), cutoff)]
  }

  class SlidingWindowRateLimiter {
    const maxRequests: int
    const window: real
    var hits: map<string, seq<real>>

    constructor (maxRequests: int, window: real)
      ensures this.maxRequests == maxRequests && this.window == window && hits == map[]
    {
      this.maxRequests := maxRequests;
      this.window := window;
      hits := map[];
    }

    method CheckKey(key: string, now: real) returns (allowed: bool, remaining: int)
      modifies this
      ensures Checked(Verdict(allowed, remaining), hits) == Check(maxRequests, window, old(hits), Request(key, now))
    {
      var timestamps := if key in hits then hits[key] else [];
      var recent := Prune(timestamps, now - window);
      hits := hits[key := recent];
      if |hits[key]| >= maxRequests {
        return false, 0;
      }
      hits := hits[key := hits[key] + [now]];
      return true, maxRequests - |hits[key]|;
    }
  }

  method Prune(times: seq<real>, cutoff: real) returns (kept: seq<real>)
    ensures kept == Since(times, cutoff)
  {
    kept := [];
    for i := 0 to |times|
      invariant kept == Since(times[..i], cutoff)
    {
      assert times[..i + 1][..i] == times[..i];
      if times[i] > cutoff { kept := kept + [times[i]]; }
    }
    assert times[..|times|] == times;
  }

  // ---------- The simple log ----------

  function TimesOf(log: seq<Request>, key: string): seq<real> {
    if log == [] then []
    else
      var n := |log| - 1;
      if log[n].key == key then TimesOf(log[..n], key) + [log[n].time] else TimesOf(log[..n], key)
  }

  /** The requests of a key in `(now - window, now]`, as a log that forgets nothing counts them. */
  function InWindow(log: seq<Request>, key: string, now: real, window: real): nat {
    if log == [] then 0
    else
      var n := |log| - 1;
      InWindow(log[..n], key, now, window)
      + (if log[n].key == key && now - window < log[n].time <= now then 1 else 0)
  }

  /** The requests the log lets through: those that find fewer than `max` in their window. */
  function Admitted(max: int, window: real, requests: seq<Request>): seq<Request> {
    if requests == [] then []
    else
      var n := |requests| - 1;
      var log, r := Admitted(max, window, requests[..n]), requests[n];
      if InWindow(log, r.key, r.time, window) < max then log + [r] else log
  }

  predicate InTimeOrder(requests: seq<Request>) {
    forall i, j :: 0 <= i < j < |requests| ==> requests[i].time <= requests[j].time
  }

  function HitsAfter(max: int, window: real, requests: seq<Request>): map<string, seq<real>> {
    if requests == [] then map[]
    else
      var n := |requests| - 1;
      Check(max, window, HitsAfter(max, window, requests[..n]), requests[n]).hits
  }

  /** All times in the log lie at or before `now`. */
  predicate NotAfter(log: seq<Request>, now: real) {
    forall r :: r in log ==> r.time <= now
  }

  lemma {:induction false} InWindowIsSince(log: seq<Request>, key: string, now: real, window: real)
    requires NotAfter(log, now)
    ensures InWindow(log, key, now, window) == |Since(TimesOf(log, key), now - window)|
  {
    if log != [] {
      var n := |log| - 1;
      InWindowIsSince(log[..n], key, now, window);
      if log[n].key == key { SinceAppend(TimesOf(log[..n], key), log[n].time, now - window); }
    }
  }

  lemma {:induction false} SinceAppend(times: seq<real>, t: real, cutoff: real)
    ensures Since(times + [t], cutoff) == if t > cutoff then Since(times, cutoff) + [t] else Since(times, cutoff)
  {
    assert (times + [t])[..|times|] == times;
  }

  /** Pruning twice is pruning once, at the later cutoff. */
  lemma {:induction false} SinceTwice(times: seq<real>, early: real, late: real)
    requires early <= late
    ensures Since(Since(times, early), late) == Since(times, late)
  {
    if times != [] {
      var n := |times| - 1;
      SinceTwice(times[..n], early, late);
      if times[n] > early { SinceAppend(Since(times[..n], early), times[n], late); }
    }
  }

  ghost predicate SameSince(a: seq<real>, b: seq<real>, cutoff: real) {
    forall c :: c >= cutoff ==> Since(a, c) == Since(b, c)
  }

  /** The limiter's lists and the log agree on everything after `cutoff`. */
  ghost predicate Tracks(hits: map<string, seq<real>>, log: seq<Request>, cutoff: real) {
    forall key {:trigger SameSince(HitsOf(hits, key), TimesOf(log, key), cutoff)} ::
      SameSince(HitsOf(hits, key), TimesOf(log, key), cutoff)
  }

  lemma {:induction false} TimesAppend(log: seq<Request>, r: Request, key: string)
    ensures TimesOf(log + [r], key) == if r.key == key then TimesOf(log, key) + [r.time] else TimesOf(log, key)
  {
    assert (log + [r])[..|log|] == log;
  }

  lemma {:induction false} CheckAnswers(max: int, window: real, hits: map<string, seq<real>>, log: seq<Request>,
                                        r: Request)
    requires Tracks(hits, log, r.time - window) && NotAfter(log, r.time)
    ensures var used := InWindow(log, r.key, r.time, window);
            Check(max, window, hits, r).verdict
            == (if used < max then Verdict(true, max - used - 1) else Verdict(false, 0))
  {
    InWindowIsSince(log, r.key, r.time, window);
    assert SameSince(HitsOf(hits, r.key), TimesOf(log, r.key), r.time - window);
  }

  /** Pruning one key's list leaves everything after the cutoff. */
  lemma {:induction false} PruneTracks(hits: map<string, seq<real>>, log: seq<Request>, key: string, cutoff: real)
    requires Tracks(hits, log, cutoff)
    ensures Tracks(Pruned(hits, key, cutoff), log, cutoff)
  {
    var hits' := Pruned(hits, key, cutoff);
    forall k ensures SameSince(HitsOf(hits', k), TimesOf(log, k), cutoff) {
      assert SameSince(HitsOf(hits, k), TimesOf(log, k), cutoff);
      forall c | c >= cutoff ensures Since(HitsOf(hits', k), c) == Since(HitsOf(hits, k), c) {
        if k == key { SinceTwice(HitsOf(hits, key), cutoff, c); }
      }
    }
  }

  lemma {:induction false} AppendTracks(hits: map<string, seq<real>>, log: seq<Request>, r: Request, cutoff: real)
    requires Tracks(hits, log, cutoff)
    ensures Tracks(hits[r.key := HitsOf(hits, r.key) + [r.time]], log + [r], cutoff)
  {
    var hits' := hits[r.key := HitsOf(hits, r.key) + [r.time]];
    forall k ensures SameSince(HitsOf(hits', k), TimesOf(log + [r], k), cutoff) {
      assert SameSince(HitsOf(hits, k), TimesOf(log, k), cutoff);
      TimesAppend(log, r, k);
      if k == r.key {
        forall c | c >= cutoff ensures Since(HitsOf(hits', k), c) == Since(TimesOf(log + [r], k), c) {
          SinceAppend(HitsOf(hits, k), r.time, c);
          SinceAppend(TimesOf(log, k), r.time, c);
        }
      }
    }
  }

  lemma {:induction false} CheckTracks(max: int, window: real, hits: map<string, seq<real>>, log: seq<Request>,
                                       r: Request)
    requires Tracks(hits, log, r.time - window) && NotAfter(log, r.time)
    ensures Tracks(Check(max, window, hits, r).hits,
                   if InWindow(log, r.key, r.time, window) < max then log + [r] else log, r.time - window)
  {
    CheckAnswers(max, window, hits, log, r);
    PruneTracks(hits, log, r.key, r.time - window);
    AppendTracks(Pruned(hits, r.key, r.time - window), log, r, r.time - window);
  }

  lemma {:induction false} AdmittedNotAfter(max: int, window: real, requests: seq<Request>, now: real)
    requires NotAfter(requests, now)
    ensures NotAfter(Admitted(max, window, requests), now)
  {
    if requests != [] { AdmittedNotAfter(max, window, requests[..|requests| - 1], now); }
  }

  lemma {:induction false} LaterTracks(hits: map<string, seq<real>>, log: seq<Request>, early: real, late: real)
    requires Tracks(hits, log, early) && early <= late
    ensures Tracks(hits, log, late)
  {
    forall k ensures SameSince(HitsOf(hits, k), TimesOf(log, k), late) {
      assert SameSince(HitsOf(hits, k), TimesOf(log, k), early);
    }
  }

  lemma {:induction false} StepTracks(max: int, window: real, before: seq<Request>, r: Request, requests: seq<Request>)
    requires requests != [] && before == requests[..|requests| - 1] && r == requests[|requests| - 1]
    requires NotAfter(before, r.time)
    requires Tracks(HitsAfter(max, window, before), Admitted(max, window, before), r.time - window)
    ensures Tracks(HitsAfter(max, window, requests), Admitted(max, window, requests), r.time - window)
  {
    AdmittedNotAfter(max, window, before, r.time);
    CheckTracks(max, window, HitsAfter(max, window, before), Admitted(max, window, before), r);
  }

  lemma {:induction false} InOrderSoFar(requests: seq<Request>)
    requires requests != [] && InTimeOrder(requests)
    ensures var n := |requests| - 1; InTimeOrder(requests[..n]) && NotAfter(requests[..n], requests[n].time)
  {
  }

  lemma {:induction false} RunTracks(max: int, window: real, requests: seq<Request>, now: real)
    requires InTimeOrder(requests) && (requests != [] ==> requests[|requests| - 1].time <= now)
    ensures Tracks(HitsAfter(max, window, requests), Admitted(max, window, requests), now - window)
  {
    if requests != [] {
      var n := |requests| - 1;
      var r := requests[n];
      InOrderSoFar(requests);
      RunTracks(max, window, requests[..n], r.time);
      StepTracks(max, window, requests[..n], r, requests);
      LaterTracks(HitsAfter(max, window, requests), Admitted(max, window, requests), r.time - window, now - window);
    }
  }

  lemma {:induction false} StateTracks(max: int, window: real, requests: seq<Request>, now: real)
    requires InTimeOrder(requests) && NotAfter(requests, now)
    ensures Tracks(HitsAfter(max, window, requests), Admitted(max, window, requests), now - window)
    ensures NotAfter(Admitted(max, window, requests), now)
  {
    AdmittedNotAfter(max, window, requests, now);
    assert requests != [] ==> requests[|requests| - 1] in requests;
    RunTracks(max, window, requests, now);
  }

  /** After any requests in time order, a request is allowed exactly when fewer than the maximum
      of its key's allowed requests lie in the window that ends with it, and the remaining
      allowance is what that window leaves: pruning never changes an answer. */
  lemma {:induction false} LimiterIsLog(max: int, window: real, requests: seq<Request>, r: Request)
    requires InTimeOrder(requests) && NotAfter(requests, r.time)
    ensures var used := InWindow(Admitted(max, window, requests), r.key, r.time, window);
            Check(max, window, HitsAfter(max, window, requests), r).verdict
            == (if used < max then Verdict(true, max - used - 1) else Verdict(false, 0))
  {
    StateTracks(max, window, requests, r.time);
    CheckAnswers(max, window, HitsAfter(max, window, requests), Admitted(max, window, requests), r);
  }

  lemma {:induction false} LaterWindowHoldsLess(log: seq<Request>, key: string, early: real, late: real, window: real)
    requires NotAfter(log, early) && early <= late
    ensures InWindow(log, key, late, window) <= InWindow(log, key, early, window)
  {
    if log != [] { LaterWindowHoldsLess(log[..|log| - 1], key, early, late, window); }
  }

  /** No window, wherever it ends, holds more than the maximum. */
  lemma {:induction false} NoWindowOverflows(max: int, window: real, requests: seq<Request>, key: string, end: real)
    requires InTimeOrder(requests) && max >= 0
    ensures InWindow(Admitted(max, window, requests), key, end, window) <= max
  {
    if requests != [] {
      var n := |requests| - 1;
      var log, r := Admitted(max, window, requests[..n]), requests[n];
      NoWindowOverflows(max, window, requests[..n], key, end);
      if InWindow(log, r.key, r.time, window) < max {
        assert (log + [r])[..|log|] == log;
        if r.key == key && r.time <= end {
          AdmittedNotAfter(max, window, requests[..n], r.time);
          LaterWindowHoldsLess(log, key, r.time, end, window);
        }
      }
    }
  }

  // ---------- Keys do not affect each other ----------

  function Only(requests: seq<Request>, key: string): seq<Request> {
    if requests == [] then []
    else
      var n := |requests| - 1;
      if requests[n].key == key then Only(requests[..n], key) + [requests[n]] else Only(requests[..n], key)
  }

  lemma {:induction false} InWindowOfOnly(log: seq<Request>, key: string, now: real, window: real)
    ensures InWindow(Only(log, key), key, now, window) == InWindow(log, key, now, window)
  {
    if log != [] {
      var n := |log| - 1;
      InWindowOfOnly(log[..n], key, now, window);
      if log[n].key == key { InWindowAppend(Only(log[..n], key), log[n], now, window); }
    }
  }

  lemma {:induction false} InWindowAppend(log: seq<Request>, r: Request, now: real, window: real)
    ensures InWindow(log + [r], r.key, now, window)
         == InWindow(log, r.key, now, window) + (if now - window < r.time <= now then 1 else 0)
  {
    assert (log + [r])[..|log|] == log;
  }

  lemma {:induction false} OnlyAppend(log: seq<Request>, r: Request, key: string)
    ensures Only(log + [r], key) == if r.key == key then Only(log, key) + [r] else Only(log, key)
  {
    assert (log + [r])[..|log|] == log;
  }

  lemma {:induction false} AdmittedAppend(max: int, window: real, requests: seq<Request>, r: Request)
    ensures var log := Admitted(max, window, requests);
            Admitted(max, window, requests + [r])
            == (if InWindow(log, r.key, r.time, window) < max then log + [r] else log)
  {
    assert (requests + [r])[..|requests|] == requests;
  }

  /** A key is let through exactly as if no other key had ever made a request. */
  lemma {:induction false} KeysAreIndependent(max: int, window: real, requests: seq<Request>, key: string)
    ensures Only(Admitted(max, window, requests), key) == Admitted(max, window, Only(requests, key))
  {
    if requests != [] {
      var n := |requests| - 1;
      var log, r := Admitted(max, window, requests[..n]), requests[n];
      KeysAreIndependent(max, window, requests[..n], key);
      OnlyAppend(log, r, key);
      if r.key == key {
        InWindowOfOnly(log, key, r.time, window);
        AdmittedAppend(max, window, Only(requests[..n], key), r);
      }
    }
  }
}
