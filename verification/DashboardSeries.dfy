/** The dashboard's ranges and series: rows are grouped by truncated time as the database does it,
    and the groups are laid out over the buckets of the range. */
module DashboardSeries {
  import opened Wrappers
  import opened Calendar
  import opened DashboardBuckets

  // ---- ranges ----

  function Length(key: RangeKey): int {
    match key
    case Last24h => 24 * HOUR
    case Last3d => 3 * DAY
    case Last7d => 7 * DAY
    case Last14d => 14 * DAY
    case Last1m => 30 * DAY
    case Last3m => 90 * DAY
    case Last6m => 180 * DAY
    case Last1y => 365 * DAY
  }

  function Granularity(key: RangeKey): BucketKey {
    match key
    case Last24h => Hourly
    case Last3d | Last7d | Last14d | Last1m => Daily
    case Last3m | Last6m => Weekly
    case Last1y => Monthly
  }

  function ResolveRange(key: RangeKey, now: Instant): Option<RangeSpec> {
    match Shift(now, -Length(key))
    case None => None
    case Some(start) => Some(RangeSpec(key, start, now, Granularity(key), Length(key)))
  }

  function ComparisonRange(spec: RangeSpec): Option<RangeSpec> {
    match (Shift(spec.start, -spec.duration), Shift(spec.end, -spec.duration))
    case (Some(start), Some(end)) => Some(RangeSpec(spec.key, start, end, spec.bucket, spec.duration))
    case _ => None
  }

  lemma RangeEndsNow(key: RangeKey, now: Instant)
    requires Stamp(now) >= Length(key)
    ensures ResolveRange(key, now).Some?
    ensures var spec := ResolveRange(key, now).value;
            spec.end == now && spec.duration == Length(key) && Stamp(spec.start) == Stamp(now) - spec.duration
  {
  }

  /** The range that a range is compared with ends at the very instant where that starts, and is
      as long. */
  lemma ComparisonPrecedes(spec: RangeSpec)
    requires Stamp(spec.start) == Stamp(spec.end) - spec.duration && Stamp(spec.start) >= spec.duration >= 0
    ensures ComparisonRange(spec).Some?
    ensures var past := ComparisonRange(spec).value;
            && past.end == spec.start && past.bucket == spec.bucket && past.duration == spec.duration
            && Stamp(past.start) == Stamp(past.end) - past.duration
  {
    ShiftedTo(spec.end, -spec.duration, spec.start);
  }

  lemma ShiftedTo(v: Instant, micros: int, w: Instant)
    requires Stamp(w) == Stamp(v) + micros
    ensures Shift(v, micros) == Some(w)
  {
    StampParts(w);
    SameStampSameInstant(Shift(v, micros).value, w);
  }

  /** Two such ranges share no instant but the bound between them, which belongs to both. */
  lemma RangesShareOnlyTheBound(past: RangeSpec, shown: RangeSpec, v: Instant)
    requires past.end == shown.start && !Before(past.end, past.start) && !Before(shown.end, shown.start)
    ensures Within(v, past) && Within(v, shown) <==> v == shown.start
    ensures Within(v, past) || Within(v, shown) <==> !Before(v, past.start) && !Before(shown.end, v)
  {
    BeforeIsElapsed(v, shown.start);
    BeforeIsElapsed(shown.start, v);
    EndsInOrder(past, v);
    EndsInOrder(shown, v);
  }

  lemma EndsInOrder(spec: RangeSpec, v: Instant)
    requires !Before(spec.end, spec.start)
    ensures Stamp(spec.start) <= Stamp(spec.end) && (Before(v, spec.start) <==> Stamp(v) < Stamp(spec.start))
    ensures Before(spec.end, v) <==> Stamp(spec.end) < Stamp(v)
  {
    BeforeIsElapsed(spec.end, spec.start);
    BeforeIsElapsed(v, spec.start);
    BeforeIsElapsed(spec.end, v);
  }

  predicate Within(v: Instant, spec: RangeSpec) {
    !Before(v, spec.start) && !Before(spec.end, v)
  }

  // ---- grouping by truncated time ----

  datatype Row = Row(at: Instant, weight: int)

  /** The weights of the rows of the range. */
  function Weigh(rows: seq<Row>, spec: RangeSpec): int {
    if rows == [] then 0 else
      var last := rows[|rows| - 1];
      Weigh(rows[..|rows| - 1], spec) + if Within(last.at, spec) then last.weight else 0
  }

  /** The weights of those rows of the range that truncate to `b`. */
  function WeighAt(rows: seq<Row>, spec: RangeSpec, b: Instant): int {
    if rows == [] then 0 else
      var last := rows[|rows| - 1];
      WeighAt(rows[..|rows| - 1], spec, b)
      + if Within(last.at, spec) && BucketStart(last.at, spec.bucket) == b then last.weight else 0
  }

  /** `GROUP BY date_trunc(bucket, at)`: a group for each bucket with a row in the range. */
  function Grouped(rows: seq<Row>, spec: RangeSpec): map<Instant, int> {
    map r | r in rows && Within(r.at, spec) ::
        BucketStart(r.at, spec.bucket) := WeighAt(rows, spec, BucketStart(r.at, spec.bucket))
  }

  function At(mapping: map<Instant, int>, b: Instant): int {
    if b in mapping then mapping[b] else 0
  }

  lemma {:induction false} NoRowsNoWeight(rows: seq<Row>, spec: RangeSpec, b: Instant)
    requires forall r | r in rows :: !(Within(r.at, spec) && BucketStart(r.at, spec.bucket) == b)
    ensures WeighAt(rows, spec, b) == 0
  {
    if rows != [] {
      assert rows[|rows| - 1] in rows;
      NoRowsNoWeight(rows[..|rows| - 1], spec, b);
    }
  }

  /** A group missing from the result is one that would have weighed nothing. */
  lemma GroupedAt(rows: seq<Row>, spec: RangeSpec, b: Instant)
    ensures At(Grouped(rows, spec), b) == WeighAt(rows, spec, b)
  {
    if b !in Grouped(rows, spec) {
      NoRowsNoWeight(rows, spec, b);
    }
  }

  function Sum(values: seq<int>): int {
    if values == [] then 0 else Sum(values[..|values| - 1]) + values[|values| - 1]
  }

  lemma {:induction false} SumOfZeros(values: seq<int>)
    requires forall i | 0 <= i < |values| :: values[i] == 0
    ensures Sum(values) == 0
  {
    if values != [] {
      SumOfZeros(values[..|values| - 1]);
    }
  }

  lemma {:induction false} SumRaisedAt(values: seq<int>, raised: seq<int>, k: nat, w: int)
    requires |raised| == |values| && k < |values|
    requires forall i | 0 <= i < |values| :: raised[i] == values[i] + if i == k then w else 0
    ensures Sum(raised) == Sum(values) + w
  {
    var n := |values| - 1;
    if k == n {
      assert raised[..n] == values[..n];
    } else {
      SumRaisedAt(values[..n], raised[..n], k, w);
    }
  }

  function Weights(rows: seq<Row>, spec: RangeSpec, bs: seq<Instant>): (ws: seq<int>)
    ensures |ws| == |bs| && forall i | 0 <= i < |bs| :: ws[i] == WeighAt(rows, spec, bs[i])
  {
    seq(|bs|, i requires 0 <= i < |bs| => WeighAt(rows, spec, bs[i]))
  }

  /** No row is lost and none is counted twice: the groups laid out over the buckets of the range
      weigh together what the rows of the range weigh. */
  lemma {:induction false} NothingLost(rows: seq<Row>, spec: RangeSpec, bs: seq<Instant>)
    requires Listing(bs, spec)
    ensures Sum(Weights(rows, spec, bs)) == Weigh(rows, spec)
  {
    if rows == [] {
      SumOfZeros(Weights(rows, spec, bs));
    } else {
      var front, last := rows[..|rows| - 1], rows[|rows| - 1];
      NothingLost(front, spec, bs);
      if Within(last.at, spec) {
        InstantHasOneBucket(bs, spec, last.at);
        var k :| 0 <= k < |bs| && bs[k] == BucketStart(last.at, spec.bucket)
                 && forall j | 0 <= j < |bs| :: bs[j] == BucketStart(last.at, spec.bucket) ==> j == k;
        SumRaisedAt(Weights(front, spec, bs), Weights(rows, spec, bs), k, last.weight);
      } else {
        assert Weights(rows, spec, bs) == Weights(front, spec, bs);
      }
    }
  }

  // ---- series ----

  datatype SeriesPoint = SeriesPoint(period: Instant, value: int)

  function Periods(points: seq<SeriesPoint>): seq<Instant> {
    seq(|points|, i requires 0 <= i < |points| => points[i].period)
  }

  function Values(points: seq<SeriesPoint>): seq<int> {
    seq(|points|, i requires 0 <= i < |points| => points[i].value)
  }

  method SeriesFromMapping(spec: RangeSpec, mapping: map<Instant, int>) returns (points: seq<SeriesPoint>)
    ensures Listing(Periods(points), spec)
    ensures forall i | 0 <= i < |points| :: points[i].value == At(mapping, points[i].period)
  {
    var buckets := BuildBuckets(spec);
    points := seq(|buckets|, i requires 0 <= i < |buckets| => SeriesPoint(buckets[i], At(mapping, buckets[i])));
    assert Periods(points) == buckets;
  }

  /** A counting series, as the throughput one: each point weighs the rows from its bucket start up
      to the next, and all points together weigh what the rows of the range do. */
  method QuerySeries(spec: RangeSpec, rows: seq<Row>, anyBoard: bool) returns (points: seq<SeriesPoint>)
    ensures Listing(Periods(points), spec)
    ensures forall i | 0 <= i < |points| :: points[i].value == if anyBoard then WeighAt(rows, spec, points[i].period)
            else 0
    ensures Sum(Values(points)) == if anyBoard then Weigh(rows, spec) else 0
  {
    if !anyBoard {
      points := SeriesFromMapping(spec, map[]);
      SumOfZeros(Values(points));
      return;
    }
    points := SeriesFromMapping(spec, Grouped(rows, spec));
    forall i | 0 <= i < |points| ensures points[i].value == WeighAt(rows, spec, points[i].period) {
      GroupedAt(rows, spec, points[i].period);
    }
    NothingLost(rows, spec, Periods(points));
    assert Values(points) == Weights(rows, spec, Periods(points));
  }

  // ---- work in progress ----

  datatype Status = Inbox | InProgress | Review | Done

  datatype BoardTask = BoardTask(status: Status, created: Instant, updated: Instant)

  datatype WipPoint = WipPoint(period: Instant, inbox: int, inProgress: int, review: int, done: int)

  type Counts = map<string, int>

  function Get(values: Counts, key: string): int {
    if key in values then values[key] else 0
  }

  /** Tasks in the inbox are dated by their creation, all others by their last change. */
  function RowsOf(tasks: seq<BoardTask>, status: Status): seq<Row> {
    seq(|tasks|, i requires 0 <= i < |tasks| =>
      Row(if status == Inbox then tasks[i].created else tasks[i].updated, if tasks[i].status == status then 1 else 0))
  }

  function ValuesAt(mapping: map<Instant, Counts>, b: Instant): Counts {
    if b in mapping then mapping[b] else map[]
  }

  predicate PointFor(p: WipPoint, b: Instant, values: Counts) {
    p == WipPoint(b, Get(values, "inbox"), Get(values, "in_progress"), Get(values, "review"), Get(values, "done"))
  }

  function WipPeriods(points: seq<WipPoint>): (bs: seq<Instant>)
    ensures |bs| == |points| && forall i | 0 <= i < |bs| :: bs[i] == points[i].period
  {
    seq(|points|, i requires 0 <= i < |points| => points[i].period)
  }

  method WipSeriesFromMapping(spec: RangeSpec, mapping: map<Instant, Counts>) returns (points: seq<WipPoint>)
    ensures Listing(WipPeriods(points), spec)
    ensures forall i | 0 <= i < |points| :: PointFor(points[i], points[i].period, ValuesAt(mapping, points[i].period))
  {
    var buckets := BuildBuckets(spec);
    points := [];
    for i := 0 to |buckets|
      invariant |points| == i
      invariant forall j | 0 <= j < i :: PointFor(points[j], buckets[j], ValuesAt(mapping, buckets[j]))
    {
      var values := ValuesAt(mapping, buckets[i]);
      points := points + [WipPoint(buckets[i], Get(values, "inbox"), Get(values, "in_progress"),
                                   Get(values, "review"), Get(values, "done"))];
    }
    assert WipPeriods(points) == buckets;
  }

  /** What one bucket's counts should be, seen from the query results. */
  predicate Merged(values: Counts, inbox: int, inProgress: int, review: int, done: int) {
    && Get(values, "inbox") == inbox && Get(values, "in_progress") == inProgress
    && Get(values, "review") == review && Get(values, "done") == done
  }

  method MergeInbox(inbox: map<Instant, int>) returns (mapping: map<Instant, Counts>)
    ensures forall b: Instant :: Merged(ValuesAt(mapping, b), At(inbox, b), 0, 0, 0)
  {
    mapping := map[];
    var todo := inbox.Keys;
    while todo != {}
      invariant todo <= inbox.Keys
      invariant forall b: Instant :: Merged(ValuesAt(mapping, b), if b in todo then 0 else At(inbox, b), 0, 0, 0)
      decreases |todo|
    {
      var b :| b in todo;
      mapping := mapping[b := ValuesAt(mapping, b)["inbox" := inbox[b]]];
      todo := todo - {b};
    }
  }

  method MergeStatuses(before: map<Instant, Counts>, inProgress: map<Instant, int>, review: map<Instant, int>,
      done: map<Instant, int>)
    returns (mapping: map<Instant, Counts>)
    requires inProgress.Keys == review.Keys == done.Keys
    requires forall b: Instant :: Merged(ValuesAt(before, b), Get(ValuesAt(before, b), "inbox"), 0, 0, 0)
    ensures forall b: Instant ::
            Merged(ValuesAt(mapping, b), Get(ValuesAt(before, b), "inbox"), At(inProgress, b), At(review, b),
                At(done, b))
  {
    mapping := before;
    var todo := done.Keys;
    while todo != {}
      invariant todo <= done.Keys
      invariant forall b: Instant | b in todo :: ValuesAt(mapping, b) == ValuesAt(before, b)
      invariant forall b: Instant | b !in todo ::
              Merged(ValuesAt(mapping, b), Get(ValuesAt(before, b), "inbox"), At(inProgress, b), At(review, b),
                  At(done, b))
      decreases |todo|
    {
      var b :| b in todo;
      var values := SetStatuses(ValuesAt(mapping, b), inProgress[b], review[b], done[b]);
      mapping := mapping[b := values];
      todo := todo - {b};
    }
  }

  function SetStatuses(values: Counts, inProgress: int, review: int, done: int): (r: Counts)
    ensures Merged(r, Get(values, "inbox"), inProgress, review, done)
  {
    values["in_progress" := inProgress]["review" := review]["done" := done]
  }

  function Column(points: seq<WipPoint>, status: Status): seq<int> {
    seq(|points|, i requires 0 <= i < |points| =>
      match status
      case Inbox => points[i].inbox
      case InProgress => points[i].inProgress
      case Review => points[i].review
      case Done => points[i].done)
  }

  function StatusGroups(tasks: seq<BoardTask>, spec: RangeSpec, status: Status): map<Instant, int> {
    Grouped(RowsOf(tasks, status), spec)
  }

  lemma SameGroups(tasks: seq<BoardTask>, spec: RangeSpec, a: Status, b: Status)
    requires a != Inbox && b != Inbox
    ensures StatusGroups(tasks, spec, a).Keys <= StatusGroups(tasks, spec, b).Keys
  {
    forall k | k in StatusGroups(tasks, spec, a).Keys ensures k in StatusGroups(tasks, spec, b).Keys {
      var r :| r in RowsOf(tasks, a) && Within(r.at, spec) && BucketStart(r.at, spec.bucket) == k;
      var i :| 0 <= i < |tasks| && RowsOf(tasks, a)[i] == r;
      assert RowsOf(tasks, b)[i] in RowsOf(tasks, b) && RowsOf(tasks, b)[i].at == r.at;
    }
  }

  lemma ColumnIsWeights(spec: RangeSpec, tasks: seq<BoardTask>, points: seq<WipPoint>, s: Status)
    requires Listing(WipPeriods(points), spec)
    requires forall i | 0 <= i < |points| :: Column(points, s)[i] == At(StatusGroups(tasks, spec, s), points[i].period)
    ensures Column(points, s) == Weights(RowsOf(tasks, s), spec, WipPeriods(points))
    ensures Sum(Column(points, s)) == Weigh(RowsOf(tasks, s), spec)
  {
    forall i | 0 <= i < |points| ensures Column(points, s)[i] == WeighAt(RowsOf(tasks, s), spec, points[i].period) {
      GroupedAt(RowsOf(tasks, s), spec, points[i].period);
    }
    NothingLost(RowsOf(tasks, s), spec, WipPeriods(points));
  }

  /** Work in progress over a range: in each of the four columns, a point counts the tasks of that
      status dated in its bucket, and the points add up to those dated in the range. */
  method QueryWip(spec: RangeSpec, tasks: seq<BoardTask>, anyBoard: bool) returns (points: seq<WipPoint>)
    ensures Listing(WipPeriods(points), spec)
    ensures forall s: Status ::
              Column(points, s) == Weights(RowsOf(if anyBoard then tasks else [], s), spec, WipPeriods(points))
    ensures forall s: Status :: Sum(Column(points, s)) == Weigh(RowsOf(if anyBoard then tasks else [], s), spec)
  {
    var counted := if anyBoard then tasks else [];
    var inbox, inProgress := StatusGroups(counted, spec, Inbox), StatusGroups(counted, spec, InProgress);
    var review, done := StatusGroups(counted, spec, Review), StatusGroups(counted, spec, Done);
    SameGroups(counted, spec, InProgress, Review);
    SameGroups(counted, spec, Review, Done);
    SameGroups(counted, spec, Done, InProgress);
    var mapping := MergeInbox(inbox);
    mapping := MergeStatuses(mapping, inProgress, review, done);
    points := WipSeriesFromMapping(spec, mapping);
    forall s: Status {
      ColumnIsWeights(spec, counted, points, s);
    }
  }
}
