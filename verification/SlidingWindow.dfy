/** The sliding window both rate limiters stand for: an unbounded log of attempts, and the
    bounded list of times that represents it. */
module SlidingWindow {
  ghost predicate Sorted(ts: seq<real>) {
    forall i, j :: 0 <= i < j < |ts| ==> ts[i] <= ts[j]
  }

  ghost predicate AtMost(ts: seq<real>, bound: real) {
    forall i :: 0 <= i < |ts| ==> ts[i] <= bound
  }

  /** How many of the times lie after `cutoff`. */
  function CountAfter(ts: seq<real>, cutoff: real): nat {
    if ts == [] then 0
    else CountAfter(ts[..|ts| - 1], cutoff) + (if ts[|ts| - 1] > cutoff then 1 else 0)
  }

  /** The rule: fewer than `max` earlier attempts, refused ones included, in the last window. */
  predicate Allowed(log: seq<real>, now: real, max: nat, window: real) {
    CountAfter(log, now - window) < max
  }

  /** Drop expired times from the front. */
  function Prune(ts: seq<real>, cutoff: real): seq<real> {
    if ts != [] && ts[0] <= cutoff then Prune(ts[1..], cutoff) else ts
  }

  /** Add a time, dropping the oldest when there are `max` already. */
  function Push(ts: seq<real>, now: real, max: nat): seq<real> {
    if |ts| < max || ts == [] then ts + [now] else ts[1..] + [now]
  }

  /** The bounded list after the attempts of `log`. */
  function Bucket(log: seq<real>, max: nat, window: real): seq<real> {
    if log == [] then []
    else
      var now := log[|log| - 1];
      Push(Prune(Bucket(log[..|log| - 1], max, window), now - window), now, max)
  }

  lemma {:induction false} CountConcat(a: seq<real>, b: seq<real>, cutoff: real)
    ensures CountAfter(a + b, cutoff) == CountAfter(a, cutoff) + CountAfter(b, cutoff)
  {
    if b == [] {
      assert a + b == a;
    } else {
      assert (a + b)[..|a + b| - 1] == a + b[..|b| - 1];
      CountConcat(a, b[..|b| - 1], cutoff);
    }
  }

  lemma {:induction false} CountAll(ts: seq<real>, cutoff: real)
    ensures CountAfter(ts, cutoff) <= |ts|
    ensures (forall i :: 0 <= i < |ts| ==> ts[i] > cutoff) ==> CountAfter(ts, cutoff) == |ts|
    ensures (forall i :: 0 <= i < |ts| ==> ts[i] <= cutoff) ==> CountAfter(ts, cutoff) == 0
  {
    if ts != [] {
      CountAll(ts[..|ts| - 1], cutoff);
    }
  }

  lemma {:induction false} CountShrinks(ts: seq<real>, lower: real, higher: real)
    requires lower <= higher
    ensures CountAfter(ts, higher) <= CountAfter(ts, lower)
  {
    if ts != [] {
      CountShrinks(ts[..|ts| - 1], lower, higher);
    }
  }

  lemma CountHead(ts: seq<real>, cutoff: real)
    requires ts != []
    ensures CountAfter(ts, cutoff) == CountAfter(ts[1..], cutoff) + (if ts[0] > cutoff then 1 else 0)
  {
    assert ts == [ts[0]] + ts[1..];
    CountConcat([ts[0]], ts[1..], cutoff);
    assert CountAfter([ts[0]], cutoff) == if ts[0] > cutoff then 1 else 0 by {
      assert [ts[0]][..0] == [];
    }
  }

  /** Pruning drops exactly the expired times of a sorted list. */
  lemma {:induction false} PruneIs(ts: seq<real>, cutoff: real)
    requires Sorted(ts)
    ensures Sorted(Prune(ts, cutoff)) && |Prune(ts, cutoff)| == CountAfter(ts, cutoff)
    ensures forall i :: 0 <= i < |Prune(ts, cutoff)| ==> Prune(ts, cutoff)[i] > cutoff
  {
    if ts != [] && ts[0] <= cutoff {
      PruneIs(ts[1..], cutoff);
      CountHead(ts, cutoff);
    } else {
      CountAll(ts, cutoff);
    }
  }

  lemma {:induction false} PruneAtMost(ts: seq<real>, cutoff: real, bound: real)
    requires AtMost(ts, bound)
    ensures AtMost(Prune(ts, cutoff), bound)
  {
    if ts != [] && ts[0] <= cutoff {
      PruneAtMost(ts[1..], cutoff, bound);
    }
  }

  lemma {:induction false} PruneKeepsCount(ts: seq<real>, cutoff: real, c: real)
    requires c >= cutoff
    ensures CountAfter(Prune(ts, cutoff), c) == CountAfter(ts, c)
  {
    if ts != [] && ts[0] <= cutoff {
      PruneKeepsCount(ts[1..], cutoff, c);
      CountHead(ts, c);
    }
  }

  function Min(a: nat, b: nat): nat {
    if a < b then a else b
  }

  lemma PushShape(ts: seq<real>, now: real, max: nat)
    requires Sorted(ts) && |ts| <= max && max >= 1 && AtMost(ts, now)
    ensures |Push(ts, now, max)| == Min(max, |ts| + 1)
    ensures Sorted(Push(ts, now, max)) && AtMost(Push(ts, now, max), now)
  {
  }

  lemma PushCount(ts: seq<real>, now: real, max: nat, c: real)
    requires Sorted(ts) && |ts| <= max && max >= 1 && AtMost(ts, now)
    ensures CountAfter(Push(ts, now, max), c) == Min(max, CountAfter(ts, c) + (if now > c then 1 else 0))
  {
    CountConcat(ts, [now], c);
    assert [now][..0] == [];
    CountAll(ts, c);
    if |ts| == max {
      CountHead(ts, c);
      CountConcat(ts[1..], [now], c);
      CountAll(ts[1..], c);
    }
  }

  lemma {:induction false} BucketShape(log: seq<real>, max: nat, window: real)
    requires Sorted(log) && max >= 1
    ensures var b := Bucket(log, max, window);
            |b| <= max && Sorted(b) && (log == [] ==> b == []) && (log != [] ==> AtMost(b, log[|log| - 1]))
    decreases |log|, 1
  {
    if log != [] {
      var live := LiveShape(log, max, window);
      PushShape(live, log[|log| - 1], max);
    }
  }

  /** The live part of the bucket when the last attempt of `log` arrives. */
  lemma {:induction false} LiveShape(log: seq<real>, max: nat, window: real) returns (live: seq<real>)
    requires Sorted(log) && max >= 1 && log != []
    ensures live == Prune(Bucket(log[..|log| - 1], max, window), log[|log| - 1] - window)
    ensures Sorted(live) && |live| <= max && AtMost(live, log[|log| - 1])
    decreases |log|, 0
  {
    var front, now := log[..|log| - 1], log[|log| - 1];
    BucketShape(front, max, window);
    var b := Bucket(front, max, window);
    assert AtMost(b, now);
    live := Prune(b, now - window);
    PruneIs(b, now - window);
    PruneAtMost(b, now - window, now);
    CountAll(b, now - window);
  }

  /** The bounded list counts like the whole log, up to `max`, for every cutoff still to come. */
  lemma {:induction false} BucketCountsLikeLog(log: seq<real>, max: nat, window: real, c: real)
    requires Sorted(log) && max >= 1 && (log != [] ==> c >= log[|log| - 1] - window)
    ensures CountAfter(Bucket(log, max, window), c) == Min(max, CountAfter(log, c))
  {
    if log != [] {
      var front, now := log[..|log| - 1], log[|log| - 1];
      BucketCountsLikeLog(front, max, window, c);
      var live := LiveShape(log, max, window);
      PruneKeepsCount(Bucket(front, max, window), now - window, c);
      PushCount(live, now, max, c);
    }
  }

  /** So the length of the pruned list decides the unbounded log's rule. */
  lemma PrunedLengthDecides(log: seq<real>, now: real, max: nat, window: real)
    requires Sorted(log) && max >= 1 && (log != [] ==> log[|log| - 1] <= now)
    ensures |Prune(Bucket(log, max, window), now - window)| < max <==> Allowed(log, now, max, window)
  {
    BucketCountsLikeLog(log, max, window, now - window);
    BucketShape(log, max, window);
    PruneIs(Bucket(log, max, window), now - window);
  }

  lemma NextTime(log: seq<real>, now: real, max: nat, window: real)
    requires Sorted(log) && AtMost(log, now) && max >= 1
    ensures var live := Prune(Bucket(log, max, window), now - window);
            && (|live| < max <==> Allowed(log, now, max, window))
            && |Push(live, now, max)| <= max
  {
    PrunedLengthDecides(log, now, max, window);
    BucketShape(log, max, window);
    PruneIs(Bucket(log, max, window), now - window);
    CountAll(Bucket(log, max, window), now - window);
  }

  // ----- The limit really is one ----------------------------------------------------------------

  /** A half-open window of the given length; closed on one side or the other. */
  predicate InWindow(x: real, start: real, window: real, closedLeft: bool) {
    if closedLeft then start <= x < start + window else start < x <= start + window
  }

  function AttemptsIn(log: seq<real>, start: real, window: real, closedLeft: bool): nat {
    if log == [] then 0
    else
      AttemptsIn(log[..|log| - 1], start, window, closedLeft)
      + (if InWindow(log[|log| - 1], start, window, closedLeft) then 1 else 0)
  }

  /** The attempts of a log within a window that the rule let through. */
  function AllowedIn(log: seq<real>, max: nat, window: real, start: real, closedLeft: bool): nat {
    if log == [] then 0
    else
      var front, now := log[..|log| - 1], log[|log| - 1];
      AllowedIn(front, max, window, start, closedLeft)
      + (if InWindow(now, start, window, closedLeft) && Allowed(front, now, max, window) then 1 else 0)
  }

  lemma {:induction false} WindowWithinCount(log: seq<real>, now: real, start: real, window: real, closedLeft: bool)
    requires InWindow(now, start, window, closedLeft)
    ensures AttemptsIn(log, start, window, closedLeft) <= CountAfter(log, now - window)
  {
    if log != [] {
      WindowWithinCount(log[..|log| - 1], now, start, window, closedLeft);
    }
  }

  /** In every run and for every key, any half-open window holds at most `max` allowed attempts. */
  lemma {:induction false} AtMostMaxPerWindow(log: seq<real>, max: nat, window: real, start: real, closedLeft: bool)
    ensures AllowedIn(log, max, window, start, closedLeft) <= max
    ensures AllowedIn(log, max, window, start, closedLeft) <= AttemptsIn(log, start, window, closedLeft)
  {
    if log != [] {
      var front, now := log[..|log| - 1], log[|log| - 1];
      AtMostMaxPerWindow(front, max, window, start, closedLeft);
      if InWindow(now, start, window, closedLeft) && Allowed(front, now, max, window) {
        WindowWithinCount(front, now, start, window, closedLeft);
      }
    }
  }

  /** The attempts let through in a window that is closed on both sides. */
  function AllowedInClosed(log: seq<real>, max: nat, window: real, start: real): nat {
    if log == [] then 0
    else
      var front, now := log[..|log| - 1], log[|log| - 1];
      AllowedInClosed(front, max, window, start)
      + (if start <= now <= start + window && Allowed(front, now, max, window) then 1 else 0)
  }

  function Burst(n: nat, at: real): seq<real> {
    seq(n, _ => at)
  }

  lemma {:induction false} BurstIsAllowed(n: nat, max: nat, window: real, start: real)
    requires n <= max && window > 0.0
    ensures AllowedInClosed(Burst(n, start), max, window, start) == n
    ensures CountAfter(Burst(n, start), start - window) == n && CountAfter(Burst(n, start), start) == 0
  {
    if n > 0 {
      assert Burst(n, start)[..n - 1] == Burst(n - 1, start);
      BurstIsAllowed(n - 1, max, window, start);
    }
  }

  /** A window closed on both sides can hold one more, whatever the limit: the bound is about
      half-open ones. */
  lemma ClosedWindowCanExceed(max: nat, start: real, window: real)
    requires max >= 1 && window > 0.0
    ensures Sorted(Burst(max, start) + [start + window])
    ensures AllowedInClosed(Burst(max, start) + [start + window], max, window, start) == max + 1
  {
    var log := Burst(max, start) + [start + window];
    assert log[..max] == Burst(max, start);
    BurstIsAllowed(max, max, window, start);
  }
}
