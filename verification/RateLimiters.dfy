/** The in-memory and the Redis-backed rate limiter. Each keeps, as a ghost, the unbounded log of
    the attempts it has seen, and both answer by the same rule on that log. */
module RateLimiters {
  import opened SlidingWindow

  datatype Attempt = Attempt(key: string, at: real)

  /** Run a full sweep of all keys at every call whose number is a multiple of this. */
  const CLEANUP_INTERVAL := 128

  function TimesOf(log: seq<Attempt>, key: string): seq<real> {
    if log == [] then []
    else
      var last := log[|log| - 1];
      TimesOf(log[..|log| - 1], key) + (if last.key == key then [last.at] else [])
  }

  ghost predicate Chronological(log: seq<Attempt>) {
    forall i, j :: 0 <= i < j < |log| ==> log[i].at <= log[j].at
  }

  ghost predicate NotBefore(log: seq<Attempt>, now: real) {
    forall i :: 0 <= i < |log| ==> log[i].at <= now
  }

  lemma {:induction false} TimesNotAfter(log: seq<Attempt>, key: string, now: real)
    requires NotBefore(log, now)
    ensures AtMost(TimesOf(log, key), now)
  {
    if log != [] {
      TimesNotAfter(log[..|log| - 1], key, now);
    }
  }

  lemma {:induction false} TimesAreSorted(log: seq<Attempt>, key: string)
    requires Chronological(log)
    ensures Sorted(TimesOf(log, key))
  {
    if log != [] {
      TimesAreSorted(log[..|log| - 1], key);
      TimesNotAfter(log[..|log| - 1], key, log[|log| - 1].at);
    }
  }

  lemma TimesOfOneMore(log: seq<Attempt>, a: Attempt, key: string)
    ensures TimesOf(log + [a], key) == TimesOf(log, key) + (if a.key == key then [a.at] else [])
  {
    assert (log + [a])[..|log|] == log;
  }

  lemma BucketOneMore(times: seq<real>, now: real, max: nat, window: real)
    ensures Bucket(times + [now], max, window) == Push(Prune(Bucket(times, max, window), now - window), now, max)
  {
    assert (times + [now])[..|times|] == times;
  }

  /** A bucket that is not stored holds nothing but expired times. */
  ghost predicate AllExpired(times: seq<real>, max: nat, window: real, now: real) {
    AtMost(Bucket(times, max, window), now - window)
  }

  lemma {:induction false} PruneExpired(ts: seq<real>, cutoff: real)
    requires AtMost(ts, cutoff)
    ensures Prune(ts, cutoff) == []
  {
    if ts != [] {
      PruneExpired(ts[1..], cutoff);
    }
  }

  /** The body of `is_allowed` on one key's times: expire from the front, decide, record. */
  method Slide(times: seq<real>, now: real, max: nat, window: real) returns (kept: seq<real>, allowed: bool)
    requires max >= 1
    ensures kept == Push(Prune(times, now - window), now, max)
    ensures allowed <==> |Prune(times, now - window)| < max
  {
    var cutoff := now - window;
    kept := times;
    while kept != [] && kept[0] <= cutoff
      invariant Prune(kept, cutoff) == Prune(times, cutoff)
      decreases |kept|
    {
      kept := kept[1..];
    }
    allowed := |kept| < max;
    if allowed {
      kept := kept + [now];
    } else {
      kept := kept[1..] + [now];
    }
  }

  lemma NextBucket(log: seq<Attempt>, key: string, now: real, max: nat, window: real)
    ensures Bucket(TimesOf(log + [Attempt(key, now)], key), max, window)
            == Push(Prune(Bucket(TimesOf(log, key), max, window), now - window), now, max)
  {
    TimesOfOneMore(log, Attempt(key, now), key);
    BucketOneMore(TimesOf(log, key), now, max, window);
  }

  /** One more attempt changes the bounded list of its own key only. */
  lemma AttemptChangesOneBucket(log: seq<Attempt>, key: string, now: real, max: nat, window: real)
    ensures var after := log + [Attempt(key, now)];
            && Bucket(TimesOf(after, key), max, window)
               == Push(Prune(Bucket(TimesOf(log, key), max, window), now - window), now, max)
            && forall k :: k != key ==> TimesOf(after, k) == TimesOf(log, k)
  {
    NextBucket(log, key, now, max, window);
    forall k | k != key ensures TimesOf(log + [Attempt(key, now)], k) == TimesOf(log, k) {
      TimesOfOneMore(log, Attempt(key, now), k);
    }
  }

  /** What the next attempt of a key comes to, in terms of that key's bounded list. */
  lemma NextAttempt(log: seq<Attempt>, key: string, now: real, max: nat, window: real)
    requires Chronological(log) && NotBefore(log, now) && max >= 1
    ensures var bucket := Bucket(TimesOf(log, key), max, window);
            && (|Prune(bucket, now - window)| < max <==> Allowed(TimesOf(log, key), now, max, window))
            && |Push(Prune(bucket, now - window), now, max)| <= max
  {
    TimesAreSorted(log, key);
    TimesNotAfter(log, key, now);
    NextTime(TimesOf(log, key), now, max, window);
  }

  lemma LogGrows(log: seq<Attempt>, key: string, clock: real, now: real)
    requires Chronological(log) && NotBefore(log, clock) && clock <= now
    ensures NotBefore(log, now) && Chronological(log + [Attempt(key, now)]) && NotBefore(log + [Attempt(key, now)], now)
  {
  }

  /** Every stored bucket is the bounded list of its key's attempts; a key without one has nothing
      live. */
  ghost predicate BucketsRight(buckets: map<string, seq<real>>, log: seq<Attempt>, max: nat, window: real,
      clock: real) {
    && (forall key :: key in buckets ==> buckets[key] == Bucket(TimesOf(log, key), max, window))
    && (forall key :: key !in buckets ==> AllExpired(TimesOf(log, key), max, window, clock))
  }

  lemma ExpiredLater(times: seq<real>, max: nat, window: real, clock: real, now: real)
    requires AllExpired(times, max, window, clock) && clock <= now
    ensures AllExpired(times, max, window, now)
  {
  }

  lemma BucketsStayRight(buckets: map<string, seq<real>>, log: seq<Attempt>, max: nat, window: real, clock: real,
                         key: string, times: seq<real>, now: real)
    requires BucketsRight(buckets, log, max, window, clock) && clock <= now
    requires times == Push(Prune(Bucket(TimesOf(log, key), max, window), now - window), now, max)
    ensures BucketsRight(buckets[key := times], log + [Attempt(key, now)], max, window, now)
  {
    AttemptChangesOneBucket(log, key, now, max, window);
    var after := log + [Attempt(key, now)];
    forall k | k !in buckets[key := times] ensures AllExpired(TimesOf(after, k), max, window, now) {
      ExpiredLater(TimesOf(log, k), max, window, clock, now);
    }
  }

  class InMemoryRateLimiter {
    const maxRequests: nat
    const window: real
    var buckets: map<string, seq<real>>
    var callCount: nat
    ghost var log: seq<Attempt>
    ghost var clock: real

    constructor (maxRequests: nat, window: real, ghost now: real)
      requires maxRequests >= 1
      ensures Valid() && log == [] && clock == now && this.maxRequests == maxRequests && this.window == window
    {
      this.maxRequests, this.window := maxRequests, window;
      buckets, callCount, log, clock := map[], 0, [], now;
    }

    ghost predicate Valid()
      reads this
    {
      && maxRequests >= 1 && Chronological(log) && NotBefore(log, clock)
      && BucketsRight(buckets, log, maxRequests, window, clock)
    }

    /** `_sweep_expired`: forget the keys whose newest time has expired. */
    method SweepExpired(now: real)
      requires Valid() && clock <= now
      modifies this`buckets, this`clock
      ensures Valid() && clock == now
      ensures forall key :: key in buckets <==>
                key in old(buckets) && old(buckets)[key] != []
                    && old(buckets)[key][|old(buckets)[key]| - 1] > now - window
      ensures forall key :: key in buckets ==> buckets[key] == old(buckets)[key]
    {
      ghost var before := buckets;
      var cutoff := now - window;
      var expired := set k | k in buckets && (buckets[k] == [] || buckets[k][|buckets[k]| - 1] <= cutoff);
      buckets := buckets - expired;
      forall key | key !in buckets ensures AllExpired(TimesOf(log, key), maxRequests, window, now) {
        if key in before {
          TimesAreSorted(log, key);
          BucketShape(TimesOf(log, key), maxRequests, window);
        }
      }
      clock := now;
    }

    /** The stored times of a key, or none; either way the live ones are those of its bounded list. */
    method Lookup(key: string, now: real) returns (times: seq<real>)
      requires Valid() && clock <= now
      ensures Prune(times, now - window) == Prune(Bucket(TimesOf(log, key), maxRequests, window), now - window)
    {
      if key in buckets {
        times := buckets[key];
      } else {
        times := [];
        PruneExpired(Bucket(TimesOf(log, key), maxRequests, window), now - window);
      }
    }

    method Record(key: string, times: seq<real>, now: real)
      requires Valid() && clock <= now
      requires times == Push(Prune(Bucket(TimesOf(log, key), maxRequests, window), now - window), now, maxRequests)
      modifies this`buckets, this`log, this`clock
      ensures Valid() && clock == now && log == old(log) + [Attempt(key, now)]
      ensures buckets == old(buckets)[key := times]
    {
      LogGrows(log, key, clock, now);
      BucketsStayRight(buckets, log, maxRequests, window, clock, key, times, now);
      buckets := buckets[key := times];
      log, clock := log + [Attempt(key, now)], now;
    }

    /** `is_allowed`: the bounded list answers exactly as the unbounded log would, whether or not
        this call sweeps, and no bucket grows beyond the limit. */
    method IsAllowed(key: string, now: real) returns (allowed: bool)
      requires Valid() && clock <= now
      modifies this
      ensures Valid() && clock == now && log == old(log) + [Attempt(key, now)]
      ensures callCount == old(callCount) + 1
      ensures allowed <==> Allowed(TimesOf(old(log), key), now, maxRequests, window)
      ensures key in buckets && buckets[key] == Bucket(TimesOf(log, key), maxRequests, window)
      ensures |buckets[key]| <= maxRequests
    {
      CountCall(now);
      var timestamps;
      timestamps, allowed := Decide(key, now);
      Record(key, timestamps, now);
    }

    /** The answer and the times to store, from the times stored so far. */
    method Decide(key: string, now: real) returns (timestamps: seq<real>, allowed: bool)
      requires Valid() && clock <= now
      ensures allowed <==> Allowed(TimesOf(log, key), now, maxRequests, window)
      ensures timestamps == Push(Prune(Bucket(TimesOf(log, key), maxRequests, window), now - window), now, maxRequests)
      ensures timestamps == Bucket(TimesOf(log + [Attempt(key, now)], key), maxRequests, window)
      ensures |timestamps| <= maxRequests
    {
      NextAttempt(log, key, now, maxRequests, window);
      NextBucket(log, key, now, maxRequests, window);
      timestamps := Lookup(key, now);
      timestamps, allowed := Slide(timestamps, now, maxRequests, window);
    }

    /** Count the call and sweep at every multiple of the interval. */
    method CountCall(now: real)
      requires Valid() && clock <= now
      modifies this`callCount, this`buckets, this`clock
      ensures Valid() && clock == now && callCount == old(callCount) + 1
    {
      callCount := callCount + 1;
      if callCount % CLEANUP_INTERVAL == 0 {
        SweepExpired(now);
      } else {
        ClockAdvances(now);
      }
    }

    ghost method ClockAdvances(now: real)
      requires Valid() && clock <= now
      modifies this`clock
      ensures Valid() && clock == now
    {
      clock := now;
    }
  }
}
