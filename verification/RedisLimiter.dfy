/** The Redis-backed limiter: a script over one sorted set per key, with a key expiry. */
module RedisLimiter {
  import opened SlidingWindow
  import opened RateLimiters

  /** Redis keeps a sorted set ordered by score and, among equal scores, by member. */
  datatype Entry = Entry(member: string, score: real)
  type SortedSet = seq<Entry>

  predicate TextBefore(a: string, b: string) {
    if b == "" then false
    else if a == "" then true
    else a[0] < b[0] || (a[0] == b[0] && TextBefore(a[1..], b[1..]))
  }

  predicate EntryBefore(a: Entry, b: Entry) {
    a.score < b.score || (a.score == b.score && TextBefore(a.member, b.member))
  }

  /** ZADD of a new member. */
  function Insert(z: SortedSet, e: Entry): SortedSet {
    if z == [] || EntryBefore(e, z[0]) then [e] + z else [z[0]] + Insert(z[1..], e)
  }

  /** ZREMRANGEBYSCORE from minus infinity to `cutoff`. */
  function RemoveUpTo(z: SortedSet, cutoff: real): SortedSet {
    if z == [] then []
    else (if z[0].score <= cutoff then [] else [z[0]]) + RemoveUpTo(z[1..], cutoff)
  }

  function Scores(z: SortedSet): seq<real> {
    if z == [] then [] else [z[0].score] + Scores(z[1..])
  }

  lemma {:induction false} InsertNewest(z: SortedSet, e: Entry)
    requires Sorted(Scores(z)) && AtMost(Scores(z), e.score)
    ensures Scores(Insert(z, e)) == Scores(z) + [e.score]
  {
    if z != [] {
      assert Scores(z)[0] == z[0].score && Scores(z)[1..] == Scores(z[1..]);
      assert AtMost(Scores(z[1..]), e.score) && Sorted(Scores(z[1..]));
      if EntryBefore(e, z[0]) {
        AllEqualSwaps(Scores(z), e.score);
      } else {
        InsertNewest(z[1..], e);
      }
    }
  }

  lemma {:induction false} AllEqualSwaps(ts: seq<real>, x: real)
    requires forall i :: 0 <= i < |ts| ==> ts[i] == x
    ensures [x] + ts == ts + [x]
  {
  }

  /** On a sorted set the range removal is a pruning from the front. */
  lemma {:induction false} RemoveUpToPrunes(z: SortedSet, cutoff: real)
    requires Sorted(Scores(z))
    ensures Scores(RemoveUpTo(z, cutoff)) == Prune(Scores(z), cutoff)
  {
    if z != [] {
      var rest := Scores(z[1..]);
      assert Scores(z)[1..] == rest;
      assert Sorted(rest) by {
        assert forall i :: 0 <= i < |rest| ==> rest[i] == Scores(z)[i + 1];
      }
      RemoveUpToPrunes(z[1..], cutoff);
      if z[0].score > cutoff {
        forall i | 0 <= i < |rest| ensures z[0].score <= rest[i] {
          assert rest[i] == Scores(z)[i + 1] && Scores(z)[0] == z[0].score;
        }
        NothingToPrune(rest, cutoff, z[0].score);
        var live := RemoveUpTo(z[1..], cutoff);
        assert RemoveUpTo(z, cutoff) == [z[0]] + live;
        assert ([z[0]] + live)[1..] == live;
        assert Scores([z[0]] + live) == [z[0].score] + Scores(live);
      } else {
        assert [] + RemoveUpTo(z[1..], cutoff) == RemoveUpTo(z[1..], cutoff);
      }
    }
  }

  lemma NothingToPrune(ts: seq<real>, cutoff: real, first: real)
    requires first > cutoff
    ensures (forall i :: 0 <= i < |ts| ==> first <= ts[i]) ==> Prune(ts, cutoff) == ts
  {
  }

  /** One evaluation of the script on the live set of its key; `ok` is the script's answer. */
  function Script(z: SortedSet, cutoff: real, now: real, member: string, max: nat): (r: (SortedSet, bool)) {
    var live := RemoveUpTo(z, cutoff);
    if |live| < max then (Insert(live, Entry(member, now)), true)
    else (Insert(if live == [] then live else live[1..], Entry(member, now)), false)
  }

  lemma {:induction false} ScoresLength(z: SortedSet)
    ensures |Scores(z)| == |z|
    ensures z != [] ==> Scores(z[1..]) == Scores(z)[1..]
  {
    if z != [] {
      ScoresLength(z[1..]);
    }
  }

  lemma InsertPushes(live: SortedSet, now: real, member: string, max: nat)
    requires Sorted(Scores(live)) && AtMost(Scores(live), now) && max >= 1
    ensures |live| < max <==> |Scores(live)| < max
    ensures Scores(Insert(if |live| < max || live == [] then live else live[1..], Entry(member, now)))
            == Push(Scores(live), now, max)
  {
    ScoresLength(live);
    var kept := if |live| < max || live == [] then live else live[1..];
    assert Sorted(Scores(kept)) && AtMost(Scores(kept), now);
    InsertNewest(kept, Entry(member, now));
  }

  /** The script does to the scores what the in-memory limiter does to its bucket, and gives the
      same answer. */
  lemma ScriptSlides(z: SortedSet, now: real, member: string, max: nat, window: real)
    requires Sorted(Scores(z)) && AtMost(Scores(z), now) && max >= 1
    ensures var live := Prune(Scores(z), now - window);
            var (after, ok) := Script(z, now - window, now, member, max);
            Scores(after) == Push(live, now, max) && (ok <==> |live| < max)
  {
    RemoveUpToPrunes(z, now - window);
    PruneIs(Scores(z), now - window);
    PruneAtMost(Scores(z), now - window, now);
    InsertPushes(RemoveUpTo(z, now - window), now, member, max);
  }

  /** `int(window_seconds) + 1` */
  function TimeToLive(window: real): real {
    (window.Floor + 1) as real
  }

  lemma ExpiryIsLate(ts: seq<real>, now: real, window: real)
    requires AtMost(ts, now)
    ensures AtMost(ts, now + TimeToLive(window) - window)
  {
  }

  /** A key as Redis stores it. */
  datatype Stored = Stored(entries: SortedSet, expiresAt: real)

  /** The scores are the given bounded list, and the key lives until after the newest of them
      has left the window. */
  ghost predicate Represents(stored: Stored, bucket: seq<real>, window: real) {
    Scores(stored.entries) == bucket && AtMost(bucket, stored.expiresAt - window)
  }

  lemma StayExpired(times: seq<real>, max: nat, window: real, clock: real, now: real)
    requires AllExpired(times, max, window, clock) && clock <= now
    ensures AllExpired(times, max, window, now)
  {
  }

  /** Every stored set represents the bounded list of its key; a key without one has nothing live. */
  ghost predicate KeysRight(keys: map<string, Stored>, log: seq<Attempt>, max: nat, window: real, clock: real) {
    && (forall key :: key in keys ==> Represents(keys[key], Bucket(TimesOf(log, key), max, window), window))
    && (forall key :: key !in keys ==> AllExpired(TimesOf(log, key), max, window, clock))
  }

  lemma KeysStayRight(keys: map<string, Stored>, log: seq<Attempt>, max: nat, window: real, clock: real,
                      key: string, stored: Stored, now: real)
    requires KeysRight(keys, log, max, window, clock) && clock <= now
    requires Represents(stored, Push(Prune(Bucket(TimesOf(log, key), max, window), now - window), now, max), window)
    ensures KeysRight(keys[key := stored], log + [Attempt(key, now)], max, window, now)
  {
    AttemptChangesOneBucket(log, key, now, max, window);
    var after := keys[key := stored];
    forall k | k in after ensures Represents(after[k], Bucket(TimesOf(log + [Attempt(key, now)], k), max, window),
        window) {
      if k != key {
        assert after[k] == keys[k];
      }
    }
    forall k | k !in after ensures AllExpired(TimesOf(log + [Attempt(key, now)], k), max, window, now) {
      assert k !in keys && k != key;
      StayExpired(TimesOf(log, k), max, window, clock, now);
    }
  }

  /** How a call of the script ends: with its answer, before it ran, or after it ran but without its
      answer. */
  datatype Reply = Answered | NotReached | ReplyLost

  class RedisRateLimiter {
    const maxRequests: nat
    const window: real
    var keys: map<string, Stored>
    ghost var log: seq<Attempt>
    ghost var clock: real

    constructor (maxRequests: nat, window: real, ghost now: real)
      requires maxRequests >= 1
      ensures Valid() && log == [] && clock == now && this.maxRequests == maxRequests && this.window == window
    {
      this.maxRequests, this.window := maxRequests, window;
      keys, log, clock := map[], [], now;
    }

    ghost predicate Valid()
      reads this
    {
      && maxRequests >= 1 && Chronological(log) && NotBefore(log, clock)
      && KeysRight(keys, log, maxRequests, window, clock)
    }

    /** Redis drops the keys whose expiry has passed. By then all their entries are out of the
        window, so the drop is never observable. */
    method ExpireKeys(now: real)
      requires Valid() && clock <= now
      modifies this`keys, this`clock
      ensures Valid() && clock == now
    {
      ghost var before := keys;
      var dead := set k | k in keys && keys[k].expiresAt < now;
      keys := keys - dead;
      clock := now;
      forall key | key !in keys ensures AllExpired(TimesOf(log, key), maxRequests, window, now) {
        if key in before {
          assert Represents(before[key], Bucket(TimesOf(log, key), maxRequests, window), window);
        }
      }
    }

    /** The stored set of a key, or an empty one; either way its live scores are those of the
        bounded list. */
    method Lookup(key: string, now: real) returns (z: SortedSet)
      requires Valid() && clock <= now
      ensures Sorted(Scores(z)) && AtMost(Scores(z), now)
      ensures Prune(Scores(z), now - window) == Prune(Bucket(TimesOf(log, key), maxRequests, window), now - window)
    {
      TimesAreSorted(log, key);
      TimesNotAfter(log, key, clock);
      BucketShape(TimesOf(log, key), maxRequests, window);
      if key in keys {
        z := keys[key].entries;
      } else {
        z := [];
        PruneExpired(Bucket(TimesOf(log, key), maxRequests, window), now - window);
      }
    }

    method Record(key: string, z: SortedSet, now: real)
      requires Valid() && clock <= now
      requires Scores(z) == Push(Prune(Bucket(TimesOf(log, key), maxRequests, window), now - window), now, maxRequests)
      requires AtMost(Scores(z), now)
      modifies this`keys, this`log, this`clock
      ensures Valid() && clock == now && log == old(log) + [Attempt(key, now)]
    {
      LogGrows(log, key, clock, now);
      ExpiryIsLate(Scores(z), now, window);
      KeysStayRight(keys, log, maxRequests, window, clock, key, Stored(z, now + TimeToLive(window)), now);
      keys := keys[key := Stored(z, now + TimeToLive(window))];
      log, clock := log + [Attempt(key, now)], now;
    }

    /** `is_allowed`: when Redis answers, the same rule as the in-memory limiter's. When it does
        not, the request is allowed; whether it was recorded then depends on what was lost. */
    method IsAllowed(key: string, now: real, member: string, reply: Reply) returns (allowed: bool)
      requires Valid() && clock <= now
      modifies this
      ensures Valid()
      ensures reply.NotReached? ==> allowed && log == old(log) && keys == old(keys)
      ensures !reply.NotReached? ==> log == old(log) + [Attempt(key, now)] && clock == now
      ensures reply.Answered? ==> (allowed <==> Allowed(TimesOf(old(log), key), now, maxRequests, window))
      ensures reply.ReplyLost? ==> allowed
    {
      if reply.NotReached? {
        return true;
      }
      ExpireKeys(now);
      NextAttempt(log, key, now, maxRequests, window);
      var z := Lookup(key, now);
      z, allowed := Evaluate(z, now, member);
      Record(key, z, now);
      if reply.ReplyLost? {
        return true;
      }
    }

    method Evaluate(z: SortedSet, now: real, member: string) returns (after: SortedSet, ok: bool)
      requires Sorted(Scores(z)) && AtMost(Scores(z), now) && maxRequests >= 1
      ensures Scores(after) == Push(Prune(Scores(z), now - window), now, maxRequests)
      ensures AtMost(Scores(after), now)
      ensures ok <==> |Prune(Scores(z), now - window)| < maxRequests
    {
      ScriptSlides(z, now, member, maxRequests, window);
      NewestIsNow(Scores(z), now, maxRequests, window);
      var result := Script(z, now - window, now, member, maxRequests);
      after, ok := result.0, result.1;
    }
  }

  lemma NewestIsNow(ts: seq<real>, now: real, max: nat, window: real)
    requires Sorted(ts) && AtMost(ts, now)
    ensures AtMost(Push(Prune(ts, now - window), now, max), now)
  {
    PruneAtMost(ts, now - window, now);
  }

  /** Given the same attempts, the sorted set of a key that both backends still store has the
      bucket's times as its scores, as a multiset and even in order; so they go on answering
      alike. */
  lemma BackendsAgree(memory: InMemoryRateLimiter, redis: RedisRateLimiter, key: string)
    requires memory.Valid() && redis.Valid() && memory.log == redis.log
    requires memory.maxRequests == redis.maxRequests && memory.window == redis.window
    requires key in memory.buckets && key in redis.keys
    ensures Scores(redis.keys[key].entries) == memory.buckets[key]
    ensures multiset(Scores(redis.keys[key].entries)) == multiset(memory.buckets[key])
  {
    assert Represents(redis.keys[key], Bucket(TimesOf(redis.log, key), redis.maxRequests, redis.window), redis.window);
  }

  /** What an unbounded log answers to attempts, one after the other. */
  ghost function Answers(log: seq<Attempt>, attempts: seq<Attempt>, max: nat, window: real): seq<bool> {
    if attempts == [] then []
    else
      var n := |attempts| - 1;
      Answers(log, attempts[..n], max, window)
      + [Allowed(TimesOf(log + attempts[..n], attempts[n].key), attempts[n].at, max, window)]
  }

  lemma OneMoreAnswer(log: seq<Attempt>, attempts: seq<Attempt>, i: nat, max: nat, window: real)
    requires i < |attempts|
    ensures Answers(log, attempts[..i + 1], max, window)
            == Answers(log, attempts[..i], max, window)
                + [Allowed(TimesOf(log + attempts[..i], attempts[i].key), attempts[i].at, max, window)]
    ensures log + attempts[..i] + [attempts[i]] == log + attempts[..i + 1]
  {
    assert attempts[..i + 1][..i] == attempts[..i];
  }

  /** The attempts of a key in a window that were answered with yes. */
  ghost function GrantedIn(attempts: seq<Attempt>, answers: seq<bool>, key: string, start: real, window: real,
                           closedLeft: bool): nat
    requires |answers| == |attempts|
  {
    if attempts == [] then 0
    else
      var n := |attempts| - 1;
      GrantedIn(attempts[..n], answers[..n], key, start, window, closedLeft)
      + if attempts[n].key == key && InWindow(attempts[n].at, start, window, closedLeft) && answers[n] then 1 else 0
  }

  lemma {:induction false} AnswersLength(log: seq<Attempt>, attempts: seq<Attempt>, max: nat, window: real)
    ensures |Answers(log, attempts, max, window)| == |attempts|
  {
    if attempts != [] {
      AnswersLength(log, attempts[..|attempts| - 1], max, window);
    }
  }

  lemma GrantedOneMore(attempts: seq<Attempt>, answers: seq<bool>, next: Attempt, answer: bool, key: string,
      start: real, window: real, closedLeft: bool)
    requires |answers| == |attempts|
    ensures GrantedIn(attempts + [next], answers + [answer], key, start, window, closedLeft)
            == GrantedIn(attempts, answers, key, start, window, closedLeft)
               + if next.key == key && InWindow(next.at, start, window, closedLeft) && answer then 1 else 0
  {
    assert (attempts + [next])[..|attempts|] == attempts;
    assert (answers + [answer])[..|answers|] == answers;
  }

  lemma AllowedOneMore(times: seq<real>, now: real, max: nat, start: real, window: real, closedLeft: bool)
    ensures AllowedIn(times + [now], max, window, start, closedLeft)
            == AllowedIn(times, max, window, start, closedLeft)
               + if InWindow(now, start, window, closedLeft) && Allowed(times, now, max, window) then 1 else 0
  {
    assert (times + [now])[..|times|] == times;
  }

  lemma {:induction false} GrantedAreAllowed(log: seq<Attempt>, attempts: seq<Attempt>, key: string, max: nat,
      start: real, window: real, closedLeft: bool)
    ensures |Answers(log, attempts, max, window)| == |attempts|
    ensures GrantedIn(attempts, Answers(log, attempts, max, window), key, start, window, closedLeft)
            <= AllowedIn(TimesOf(log + attempts, key), max, window, start, closedLeft)
  {
    AnswersLength(log, attempts, max, window);
    if attempts != [] {
      var n := |attempts| - 1;
      GrantedAreAllowed(log, attempts[..n], key, max, start, window, closedLeft);
      OneMoreAnswer(log, attempts, n, max, window);
      assert attempts[..n] + [attempts[n]] == attempts == attempts[..n + 1];
      GrantedStep(log, attempts[..n], attempts[n], Answers(log, attempts[..n], max, window), key, max, start, window,
          closedLeft);
    }
  }

  lemma GrantedStep(log: seq<Attempt>, front: seq<Attempt>, next: Attempt, answers: seq<bool>, key: string, max: nat,
      start: real, window: real, closedLeft: bool)
    requires |answers| == |front|
    requires GrantedIn(front, answers, key, start, window, closedLeft)
             <= AllowedIn(TimesOf(log + front, key), max, window, start, closedLeft)
    ensures var answer := Allowed(TimesOf(log + front, next.key), next.at, max, window);
            GrantedIn(front + [next], answers + [answer], key, start, window, closedLeft)
            <= AllowedIn(TimesOf(log + (front + [next]), key), max, window, start, closedLeft)
  {
    var times := TimesOf(log + front, key);
    GrantedOneMore(front, answers, next, Allowed(TimesOf(log + front, next.key), next.at, max, window), key, start,
        window, closedLeft);
    assert log + (front + [next]) == (log + front) + [next];
    TimesOfOneMore(log + front, next, key);
    AllowedOneMore(times, next.at, max, start, window, closedLeft);
    assert times + [] == times;
  }

  /** So among the answers to any attempts, each key is granted at most `max` in any half-open
      window. */
  lemma GrantedWithinLimit(log: seq<Attempt>, attempts: seq<Attempt>, key: string, max: nat, start: real, window: real,
                           closedLeft: bool)
    ensures |Answers(log, attempts, max, window)| == |attempts|
    ensures GrantedIn(attempts, Answers(log, attempts, max, window), key, start, window, closedLeft) <= max
  {
    GrantedAreAllowed(log, attempts, key, max, start, window, closedLeft);
    AtMostMaxPerWindow(TimesOf(log + attempts, key), max, window, start, closedLeft);
  }

  /** Both backends give the same answers forever: for any attempts at times that do not go back,
      each answers as the unbounded log does, whatever was swept or has expired in between. */
  method ServeBoth(memory: InMemoryRateLimiter, redis: RedisRateLimiter, attempts: seq<Attempt>, members: seq<string>)
    returns (fromMemory: seq<bool>, fromRedis: seq<bool>)
    requires memory.Valid() && redis.Valid() && memory.log == redis.log && memory.clock == redis.clock
    requires memory.maxRequests == redis.maxRequests && memory.window == redis.window
    requires Chronological(attempts) && (attempts != [] ==> memory.clock <= attempts[0].at) && |members| == |attempts|
    modifies memory, redis
    ensures memory.Valid() && redis.Valid() && memory.log == redis.log == old(memory.log) + attempts
    ensures fromMemory == fromRedis == Answers(old(memory.log), attempts, memory.maxRequests, memory.window)
    ensures |fromMemory| == |attempts|
    ensures forall key, start, closedLeft ::
              GrantedIn(attempts, fromMemory, key, start, memory.window, closedLeft) <= memory.maxRequests
  {
    fromMemory, fromRedis := [], [];
    for i := 0 to |attempts|
      invariant memory.Valid() && redis.Valid() && memory.clock == redis.clock
      invariant memory.log == redis.log == old(memory.log) + attempts[..i]
      invariant i > 0 ==> memory.clock == attempts[i - 1].at
      invariant i == 0 ==> memory.clock == old(memory.clock)
      invariant fromMemory == fromRedis == Answers(old(memory.log), attempts[..i], memory.maxRequests, memory.window)
    {
      OneMoreAnswer(old(memory.log), attempts, i, memory.maxRequests, memory.window);
      assert attempts[i] == Attempt(attempts[i].key, attempts[i].at);
      var a := memory.IsAllowed(attempts[i].key, attempts[i].at);
      var b := redis.IsAllowed(attempts[i].key, attempts[i].at, members[i], Answered);
      fromMemory, fromRedis := fromMemory + [a], fromRedis + [b];
    }
    assert attempts[..|attempts|] == attempts;
    AnswersLength(old(memory.log), attempts, memory.maxRequests, memory.window);
    forall key, start, closedLeft
      ensures GrantedIn(attempts, fromMemory, key, start, memory.window, closedLeft) <= memory.maxRequests
    {
      GrantedWithinLimit(old(memory.log), attempts, key, memory.maxRequests, start, memory.window, closedLeft);
    }
  }
}
