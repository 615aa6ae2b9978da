/** Time series of the dashboard: a range is cut into calendar buckets, query results are grouped
    by truncated time, and every bucket of the range is given a point. */
module DashboardBuckets {
  import opened Calendar

  datatype BucketKey = Hourly | Daily | Weekly | Monthly

  datatype RangeKey = Last24h | Last3d | Last7d | Last14d | Last1m | Last3m | Last6m | Last1y

  datatype RangeSpec = RangeSpec(key: RangeKey, start: Instant, end: Instant, bucket: BucketKey, duration: int)

  function BucketStart(value: Instant, bucket: BucketKey): Instant {
    var normalized := value.(hour := 0, minute := 0, second := 0, micro := 0);
    match bucket
    case Monthly => normalized.(day := 1)
    case Weekly =>
      StampParts(normalized);
      Shift(normalized, -DAY * Weekday(normalized)).value
    case Daily => normalized
    case Hourly => value.(minute := 0, second := 0, micro := 0)
  }

  function NextBucket(cursor: Instant, bucket: BucketKey): Instant {
    StampParts(cursor);
    match bucket
    case Hourly => Shift(cursor, HOUR).value
    case Daily => Shift(cursor, DAY).value
    case Weekly => Shift(cursor, WEEK).value
    case Monthly =>
      var nextMonth := cursor.month + 1;
      if nextMonth > 12 then cursor.(year := cursor.year + 1, month := 1, day := 1)
      else cursor.(month := nextMonth, day := 1)
  }

  predicate Aligned(b: Instant, bucket: BucketKey) {
    BucketStart(b, bucket) == b
  }

  // ---- buckets of one kind in one row, numbered from the one that holds the start of year 1 ----

  function Number(v: Instant, bucket: BucketKey): int {
    match bucket
    case Hourly => Stamp(v) / HOUR
    case Daily => Stamp(v) / DAY
    case Weekly => Stamp(v) / WEEK
    case Monthly => Month(v)
  }

  /** The time at which bucket number `k` starts. */
  function StartOf(k: int, bucket: BucketKey): int {
    match bucket
    case Hourly => HOUR * k
    case Daily => DAY * k
    case Weekly => WEEK * k
    case Monthly => DAY * MonthStart(k)
  }

  lemma HourTruncation(v: Instant)
    ensures Stamp(BucketStart(v, Hourly)) == HOUR * (Stamp(v) / HOUR)
  {
    var b := BucketStart(v, Hourly);
    assert Stamp(b) == HOUR * (24 * (Ordinal(v) - 1) + v.hour);
    assert 0 <= Stamp(v) - Stamp(b) < HOUR;
  }

  lemma DayTruncation(v: Instant)
    ensures Stamp(BucketStart(v, Daily)) == DAY * (Ordinal(v) - 1) == DAY * (Stamp(v) / DAY)
  {
    StampParts(v);
  }

  lemma WeekQuotient(t: int)
    ensures WEEK * (t / WEEK) == DAY * (t / DAY - t / DAY % 7)
  {
    var d := t / DAY;
    assert t == DAY * d + t % DAY;
    var w := d / 7;
    assert WEEK * w <= t < WEEK * w + WEEK;
  }

  lemma DaysSinceMonday(d: Instant)
    ensures Weekday(d) == (Ordinal(d) - 1) % 7
  {
  }

  lemma MondayOf(v: Instant)
    ensures var midnight := BucketStart(v, Daily);
            Stamp(BucketStart(v, Weekly)) == Stamp(midnight) - DAY * Weekday(midnight)
  {
    DaysSinceMonday(BucketStart(v, Daily));
    StampParts(BucketStart(v, Daily));
  }

  /** The days since the last Monday are those beyond a whole number of weeks since year 1. */
  lemma WeekTruncation(v: Instant)
    ensures Stamp(BucketStart(v, Weekly)) == WEEK * (Stamp(v) / WEEK)
  {
    DayTruncation(v);
    MondayOf(v);
    MidnightWeekday(v);
    WeekQuotient(Stamp(v));
  }

  lemma MidnightWeekday(v: Instant)
    ensures Weekday(BucketStart(v, Daily)) == Stamp(v) / DAY % 7
  {
    DaysSinceMonday(BucketStart(v, Daily));
    assert Ordinal(BucketStart(v, Daily)) == Ordinal(v);
    StampParts(v);
  }

  lemma FirstOfMonth(v: Instant)
    requires v.day == 1 && TimeOfDay(v) == 0
    ensures Stamp(v) == DAY * MonthStart(Month(v))
  {
    OrdinalByMonth(v);
  }

  lemma WithinMonth(v: Instant)
    ensures Month(v) >= 0 && DAY * MonthStart(Month(v)) <= Stamp(v) < DAY * MonthStart(Month(v) + 1)
  {
    OrdinalByMonth(v);
    MonthsFollow(Month(v));
    TimeInDay(v);
  }

  /** Truncating an instant gives the start of the numbered bucket that contains it. */
  lemma Truncation(v: Instant, bucket: BucketKey)
    ensures var k := Number(v, bucket);
            k >= 0 && StartOf(k, bucket) == Stamp(BucketStart(v, bucket)) <= Stamp(v) < StartOf(k + 1, bucket)
  {
    StampParts(v);
    match bucket
    case Hourly => HourTruncation(v);
    case Daily => DayTruncation(v);
    case Weekly => WeekTruncation(v);
    case Monthly =>
      WithinMonth(v);
      FirstOfMonth(BucketStart(v, Monthly));
  }

  lemma StartsIncrease(a: int, b: int, bucket: BucketKey)
    requires 0 <= a < b
    ensures StartOf(a, bucket) < StartOf(a + 1, bucket) <= StartOf(b, bucket)
  {
    if bucket == Monthly {
      MonthsFollow(a);
      MonthsDoNotOverlap(a, b);
    }
  }

  lemma NumberIsUnique(v: Instant, k: int, bucket: BucketKey)
    requires k >= 0 && StartOf(k, bucket) <= Stamp(v) < StartOf(k + 1, bucket)
    ensures Number(v, bucket) == k
  {
    Truncation(v, bucket);
    var n := Number(v, bucket);
    if n < k {
      StartsIncrease(n, k, bucket);
    } else if n > k {
      StartsIncrease(k, n, bucket);
    }
  }

  lemma MonthStep(b: Instant)
    ensures Month(NextBucket(b, Monthly)) == Month(b) + 1
  {
    OrdinalByMonth(b);
  }

  lemma FixedStep(b: Instant, bucket: BucketKey)
    requires bucket != Monthly
    ensures Stamp(NextBucket(b, bucket)) == Stamp(b) + StartOf(1, bucket)
  {
    StampParts(b);
  }

  lemma StartsAreSpaced(k: int, bucket: BucketKey)
    requires bucket != Monthly
    ensures StartOf(k + 1, bucket) == StartOf(k, bucket) + StartOf(1, bucket)
  {
  }

  lemma FirstOfNextMonth(b: Instant)
    requires b.day == 1 && TimeOfDay(b) == 0
    ensures Stamp(NextBucket(b, Monthly)) == DAY * MonthStart(Month(b) + 1)
  {
    MonthStep(b);
    FirstOfMonth(NextBucket(b, Monthly));
  }

  /** Stepping from the start of a bucket gives the start of the next numbered bucket. */
  lemma Step(b: Instant, bucket: BucketKey)
    requires Aligned(b, bucket)
    ensures Stamp(NextBucket(b, bucket)) == StartOf(Number(b, bucket) + 1, bucket)
  {
    if bucket == Monthly {
      FirstOfNextMonth(b);
    } else {
      Truncation(b, bucket);
      FixedStep(b, bucket);
      StartsAreSpaced(Number(b, bucket), bucket);
    }
  }

  /** The bucket of an instant is a bucket start no later than it, and the following one is later. */
  lemma BucketContains(v: Instant, bucket: BucketKey)
    ensures Aligned(BucketStart(v, bucket), bucket)
    ensures Stamp(BucketStart(v, bucket)) <= Stamp(v) < Stamp(NextBucket(BucketStart(v, bucket), bucket))
  {
    var b, k := BucketStart(v, bucket), Number(v, bucket);
    Truncation(v, bucket);
    StartsIncrease(k, k + 1, bucket);
    NumberIsUnique(b, k, bucket);
    Truncation(b, bucket);
    BeforeIsElapsed(b, BucketStart(b, bucket));
    Step(b, bucket);
  }

  /** The step from a bucket start leads to a later bucket start. */
  lemma StepIsAligned(b: Instant, bucket: BucketKey)
    requires Aligned(b, bucket)
    ensures Aligned(NextBucket(b, bucket), bucket) && Stamp(b) < Stamp(NextBucket(b, bucket))
  {
    var n, k := NextBucket(b, bucket), Number(b, bucket) + 1;
    BucketContains(b, bucket);
    Step(b, bucket);
    Truncation(b, bucket);
    StartsIncrease(k, k + 1, bucket);
    NumberIsUnique(n, k, bucket);
    Truncation(n, bucket);
    BeforeIsElapsed(n, BucketStart(n, bucket));
  }

  /** Buckets tile the time line: the instants from a bucket start up to the next one, in any
      month of any year, are exactly those that truncate to it. */
  lemma BucketsTile(b: Instant, v: Instant, bucket: BucketKey)
    requires Aligned(b, bucket)
    ensures Stamp(b) <= Stamp(v) < Stamp(NextBucket(b, bucket)) <==> BucketStart(v, bucket) == b
  {
    BucketContains(v, bucket);
    if Stamp(b) <= Stamp(v) < Stamp(NextBucket(b, bucket)) {
      InBucketTruncates(b, v, bucket, NextBucket(b, bucket));
    }
  }

  lemma InBucketTruncates(b: Instant, v: Instant, bucket: BucketKey, next: Instant)
    requires Aligned(b, bucket) && next == NextBucket(b, bucket) && Stamp(b) <= Stamp(v) < Stamp(next)
    ensures BucketStart(v, bucket) == b
  {
    Step(b, bucket);
    Truncation(b, bucket);
    NumberIsUnique(v, Number(b, bucket), bucket);
    Truncation(v, bucket);
    BeforeIsElapsed(b, BucketStart(v, bucket));
  }

  /** Truncation never reverses two instants. */
  lemma TruncationIsMonotone(a: Instant, v: Instant, bucket: BucketKey)
    requires Stamp(a) <= Stamp(v)
    ensures Stamp(BucketStart(a, bucket)) <= Stamp(BucketStart(v, bucket))
  {
    var b := BucketStart(v, bucket);
    BucketContains(a, bucket);
    BucketContains(v, bucket);
    if Stamp(b) < Stamp(BucketStart(a, bucket)) {
      BucketsTile(b, a, bucket);
      BeforeIsElapsed(b, BucketStart(a, bucket));
      assert false;
    }
  }

  // ---- the list of buckets of a range ----

  predicate Increasing(bs: seq<Instant>) {
    forall i, j | 0 <= i < j < |bs| :: Before(bs[i], bs[j])
  }

  predicate Listed(b: Instant, spec: RangeSpec) {
    && Aligned(b, spec.bucket)
    && !Before(b, BucketStart(spec.start, spec.bucket))
    && !Before(spec.end, b)
  }

  /** The buckets of a range in order: every bucket start from the one that contains the start
      of the range up to its end, and nothing else. */
  ghost predicate Listing(bs: seq<Instant>, spec: RangeSpec) {
    Increasing(bs) && forall b: Instant :: b in bs <==> Listed(b, spec)
  }

  /** The part of that list before `cursor`. */
  ghost predicate ListingBefore(bs: seq<Instant>, spec: RangeSpec, cursor: Instant) {
    Increasing(bs) && forall b: Instant :: b in bs <==> Listed(b, spec) && Stamp(b) < Stamp(cursor)
  }

  predicate Reachable(cursor: Instant, spec: RangeSpec) {
    Aligned(cursor, spec.bucket) && Stamp(BucketStart(spec.start, spec.bucket)) <= Stamp(cursor)
  }

  lemma NothingBeforeFirst(spec: RangeSpec)
    ensures var first := BucketStart(spec.start, spec.bucket);
            Reachable(first, spec) && ListingBefore([], spec, first)
  {
    var first := BucketStart(spec.start, spec.bucket);
    BucketContains(spec.start, spec.bucket);
    forall b: Instant ensures !(Listed(b, spec) && Stamp(b) < Stamp(first)) {
      BeforeIsElapsed(b, first);
    }
  }

  lemma ListCursor(bs: seq<Instant>, spec: RangeSpec, cursor: Instant)
    requires ListingBefore(bs, spec, cursor) && Reachable(cursor, spec) && !Before(spec.end, cursor)
    ensures var next := NextBucket(cursor, spec.bucket);
            Reachable(next, spec) && ListingBefore(bs + [cursor], spec, next) && Stamp(cursor) < Stamp(next)
  {
    var next := NextBucket(cursor, spec.bucket);
    StepIsAligned(cursor, spec.bucket);
    NoneBetween(cursor, spec.bucket);
    BeforeIsElapsed(cursor, BucketStart(spec.start, spec.bucket));
    forall i | 0 <= i < |bs| ensures Before(bs[i], cursor) {
      assert bs[i] in bs;
      BeforeIsElapsed(bs[i], cursor);
    }
  }

  lemma NothingAfterEnd(bs: seq<Instant>, spec: RangeSpec, cursor: Instant)
    requires ListingBefore(bs, spec, cursor) && Before(spec.end, cursor)
    ensures Listing(bs, spec)
  {
    BeforeIsElapsed(spec.end, cursor);
    forall b: Instant | Listed(b, spec) ensures Stamp(b) < Stamp(cursor) {
      BeforeIsElapsed(spec.end, b);
    }
  }

  method BuildBuckets(spec: RangeSpec) returns (buckets: seq<Instant>)
    ensures Listing(buckets, spec)
  {
    var cursor := BucketStart(spec.start, spec.bucket);
    buckets := [];
    NothingBeforeFirst(spec);
    while !Before(spec.end, cursor)
      invariant Reachable(cursor, spec) && ListingBefore(buckets, spec, cursor)
      decreases Stamp(spec.end) - Stamp(cursor)
    {
      BeforeIsElapsed(spec.end, cursor);
      ListCursor(buckets, spec, cursor);
      buckets := buckets + [cursor];
      cursor := NextBucket(cursor, spec.bucket);
    }
    NothingAfterEnd(buckets, spec, cursor);
  }

  lemma NoneBetween(c: Instant, bucket: BucketKey)
    requires Aligned(c, bucket)
    ensures forall b: Instant :: Aligned(b, bucket) && Stamp(c) <= Stamp(b) < Stamp(NextBucket(c, bucket)) ==> b == c
  {
    forall b: Instant | Aligned(b, bucket) && Stamp(c) <= Stamp(b) < Stamp(NextBucket(c, bucket)) ensures b == c {
      BucketsTile(c, b, bucket);
    }
  }

  /** Each instant of the range falls in exactly one listed bucket: the one it truncates to, which
      is the last listed bucket that is not after it. */
  lemma InstantHasOneBucket(bs: seq<Instant>, spec: RangeSpec, v: Instant)
    requires Listing(bs, spec) && !Before(v, spec.start) && !Before(spec.end, v)
    ensures exists i :: 0 <= i < |bs| && bs[i] == BucketStart(v, spec.bucket)
                        && (forall j | 0 <= j < |bs| :: bs[j] == BucketStart(v, spec.bucket) ==> j == i)
                        && (forall j | 0 <= j < |bs| :: !Before(v, bs[j]) <==> j <= i)
  {
    var b := BucketStart(v, spec.bucket);
    BeforeIsElapsed(v, spec.start);
    TruncationIsMonotone(spec.start, v, spec.bucket);
    BucketContains(v, spec.bucket);
    BeforeIsElapsed(b, BucketStart(spec.start, spec.bucket));
    BeforeIsElapsed(spec.end, v);
    BeforeIsElapsed(spec.end, b);
    assert Listed(b, spec);
    var i :| 0 <= i < |bs| && bs[i] == b;
    forall j | 0 <= j < |bs| ensures (bs[j] == b ==> j == i) && (!Before(v, bs[j]) <==> j <= i) {
      BeforeIsElapsed(v, bs[j]);
      BeforeIsElapsed(b, bs[j]);
      BeforeIsElapsed(bs[j], b);
      if j > i {
        assert bs[j] in bs;
        BucketsTile(bs[j], v, spec.bucket);
        LaterBucket(b, bs[j], spec.bucket);
      }
    }
  }

  lemma LaterBucket(b: Instant, c: Instant, bucket: BucketKey)
    requires Aligned(b, bucket) && Aligned(c, bucket) && Stamp(b) < Stamp(c)
    ensures Stamp(NextBucket(b, bucket)) <= Stamp(c)
  {
    NoneBetween(b, bucket);
  }
}
