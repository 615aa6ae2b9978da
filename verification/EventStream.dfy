/** The server-sent event streams: a timestamp cursor and a queue of the 2000 ids sent last
    stand for "send each row once". */
module EventStream {
  type Id = nat

  /** A row of the activity log; `at` is its creation time. */
  datatype Row = Row(id: Id, at: int)

  const SSE_SEEN_MAX := 2000

  /** What the generator remembers, and everything it has sent. */
  datatype State = State(lastSeen: int, queue: seq<Id>, sent: seq<Row>)

  function Start(since: int): State {
    State(since, [], [])
  }

  function Remember(queue: seq<Id>, id: Id): seq<Id> {
    if |queue| + 1 > SSE_SEEN_MAX then (queue + [id])[1..] else queue + [id]
  }

  /** One row of a poll: skip it if its id is remembered, else remember, advance and send. */
  function Step(st: State, row: Row): State {
    if row.id in st.queue then st
    else State(if row.at > st.lastSeen then row.at else st.lastSeen, Remember(st.queue, row.id), st.sent + [row])
  }

  function Feed(st: State, rows: seq<Row>): State {
    if rows == [] then st else Step(Feed(st, rows[..|rows| - 1]), rows[|rows| - 1])
  }

  class EventGenerator {
    var lastSeen: int
    var seenIds: set<Id>
    var seenQueue: seq<Id>
    ghost var sent: seq<Row>

    constructor (since: int)
      ensures Valid() && Now() == Start(since)
    {
      lastSeen, seenIds, seenQueue, sent := since, {}, [], [];
    }

    /** The set holds the queue's ids, and these are distinct. */
    ghost predicate Valid()
      reads this
    {
      && (forall x :: x in seenIds <==> x in seenQueue)
      && (forall i, j :: 0 <= i < j < |seenQueue| ==> seenQueue[i] != seenQueue[j])
      && |seenQueue| <= SSE_SEEN_MAX
    }

    ghost function Now(): State
      reads this
    {
      State(lastSeen, seenQueue, sent)
    }

    /** The body of one poll: the rows as the query returned them, in that order. */
    method Poll(rows: seq<Row>) returns (out: seq<Row>)
      requires Valid()
      modifies this
      ensures Valid() && Now() == Feed(old(Now()), rows)
      ensures sent == old(sent) + out
    {
      out := [];
      var i := 0;
      assert rows[..0] == [];
      while i < |rows|
        invariant 0 <= i <= |rows| && Valid()
        invariant Now() == Feed(old(Now()), rows[..i])
        invariant sent == old(sent) + out
      {
        var event := rows[i];
        assert rows[..i + 1][..i] == rows[..i];
        i := i + 1;
        if event.id in seenIds {
          continue;
        }
        seenIds := seenIds + {event.id};
        seenQueue := seenQueue + [event.id];
        if |seenQueue| > SSE_SEEN_MAX {
          var oldest := seenQueue[0];
          OldestIsFirst(seenQueue);
          seenQueue := seenQueue[1..];
          seenIds := seenIds - {oldest};
        }
        lastSeen := if event.at > lastSeen then event.at else lastSeen;
        out := out + [event];
        sent := sent + [event];
      }
      assert rows[..|rows|] == rows;
    }
  }

  // ----- Exactly once ----------------------------------------------------------------------------

  ghost predicate Ordered(rows: seq<Row>) {
    forall i, j :: 0 <= i < j < |rows| ==> rows[i].at <= rows[j].at
  }

  ghost predicate Distinct(rows: seq<Row>) {
    forall i, j :: 0 <= i < j < |rows| ==> rows[i].id != rows[j].id
  }

  lemma OldestIsFirst(queue: seq<Id>)
    requires queue != [] && forall i, j :: 0 <= i < j < |queue| ==> queue[i] != queue[j]
    ensures forall x :: x in queue[1..] <==> x in queue && x != queue[0]
  {
  }

  function Ids(rows: seq<Row>): seq<Id> {
    seq(|rows|, i requires 0 <= i < |rows| => rows[i].id)
  }

  function LastRows(rows: seq<Row>): seq<Row> {
    if |rows| <= SSE_SEEN_MAX then rows else rows[|rows| - SSE_SEEN_MAX..]
  }

  /** Rows are immutable, so an id names one row; and at most 2000 of them share a time. */
  ghost predicate Table(all: set<Row>) {
    && (forall r, q :: r in all && q in all && r.id == q.id ==> r == q)
    && (forall at: int :: |RowsAt(all, at)| <= SSE_SEEN_MAX)
  }

  function RowsAt(all: set<Row>, at: int): set<Row> {
    set r | r in all && r.at == at
  }

  /** The stream's state is sound with respect to all rows that were ever visible. */
  ghost predicate Sound(st: State, all: set<Row>, since: int) {
    && Ordered(st.sent) && Distinct(st.sent)
    && (forall r :: r in st.sent ==> r in all && r.at >= since)
    && st.lastSeen == (if st.sent == [] then since else st.sent[|st.sent| - 1].at)
    && st.queue == Ids(LastRows(st.sent))
  }

  lemma {:induction false} DistinctRowsCount(rows: seq<Row>, s: set<Row>)
    requires Distinct(rows) && forall i :: 0 <= i < |rows| ==> rows[i] in s
    ensures |rows| <= |s|
  {
    if rows != [] {
      var last := rows[|rows| - 1];
      forall i | 0 <= i < |rows| - 1 ensures rows[i] in s - {last} {
        assert rows[i].id != last.id;
      }
      DistinctRowsCount(rows[..|rows| - 1], s - {last});
    }
  }

  lemma QueueHolds(sent: seq<Row>, i: nat)
    requires |sent| - SSE_SEEN_MAX <= i < |sent|
    ensures sent[i].id in Ids(LastRows(sent))
  {
    var start := |sent| - |LastRows(sent)|;
    assert LastRows(sent)[i - start] == sent[i];
    assert Ids(LastRows(sent))[i - start] == sent[i].id;
  }

  lemma QueueMisses(sent: seq<Row>, id: Id)
    requires forall i :: 0 <= i < |sent| && i >= |sent| - SSE_SEEN_MAX ==> sent[i].id != id
    ensures id !in Ids(LastRows(sent))
  {
    var start := |sent| - |LastRows(sent)|;
    forall k | 0 <= k < |LastRows(sent)| ensures Ids(LastRows(sent))[k] != id {
      assert LastRows(sent)[k] == sent[start + k];
    }
  }

  /** Everything sent from a row of the newest time on shares that time. */
  lemma NewestRowsAreFew(st: State, all: set<Row>, since: int, i: nat)
    requires Table(all) && Sound(st, all, since) && i < |st.sent| && st.sent[i].at >= st.lastSeen
    ensures |st.sent| - i <= SSE_SEEN_MAX
  {
    var at := st.sent[i].at;
    var tail := st.sent[i..];
    forall k | 0 <= k < |tail| ensures tail[k] in RowsAt(all, at) {
      assert tail[k] == st.sent[i + k];
      assert st.sent[i + k] in st.sent;
    }
    DistinctRowsCount(tail, RowsAt(all, at));
  }

  /** A row that was sent already and is not older than the newest sent is still remembered. */
  lemma SentIsRemembered(st: State, all: set<Row>, since: int, row: Row)
    requires Table(all) && Sound(st, all, since) && row in st.sent && row.at >= st.lastSeen
    ensures row.id in st.queue
  {
    var i :| 0 <= i < |st.sent| && st.sent[i] == row;
    NewestRowsAreFew(st, all, since, i);
    QueueHolds(st.sent, i);
  }

  lemma UnsentIsForgotten(st: State, all: set<Row>, since: int, row: Row)
    requires Table(all) && Sound(st, all, since) && row in all && row !in st.sent
    ensures row.id !in st.queue
  {
    assert forall i :: 0 <= i < |st.sent| ==> st.sent[i] in st.sent;
    QueueMisses(st.sent, row.id);
  }

  lemma SendKeepsSound(st: State, all: set<Row>, since: int, row: Row)
    requires Table(all) && Sound(st, all, since) && row in all && row !in st.sent
    requires row.at >= st.lastSeen && row.at >= since
    ensures Step(st, row).sent == st.sent + [row] && Sound(Step(st, row), all, since)
  {
    UnsentIsForgotten(st, all, since, row);
    var sent' := st.sent + [row];
    forall i | 0 <= i < |st.sent| ensures st.sent[i].at <= row.at && st.sent[i].id != row.id {
      assert st.sent[i] in st.sent;
    }
    RememberLast(st.sent, row);
  }

  lemma RememberLast(sent: seq<Row>, row: Row)
    ensures Remember(Ids(LastRows(sent)), row.id) == Ids(LastRows(sent + [row]))
  {
  }

  /** A row at or after the cursor is sent now or was sent before. */
  lemma StepSendsOnce(st: State, all: set<Row>, since: int, row: Row)
    requires Table(all) && Sound(st, all, since) && row in all && row.at >= st.lastSeen && row.at >= since
    ensures var st' := Step(st, row);
            && Sound(st', all, since) && st'.lastSeen == row.at
            && st'.sent == if row in st.sent then st.sent else st.sent + [row]
  {
    if row in st.sent {
      SentIsRemembered(st, all, since, row);
      var i :| 0 <= i < |st.sent| && st.sent[i] == row;
    } else {
      SendKeepsSound(st, all, since, row);
    }
  }

  /** `sent` holds exactly the rows of `before` and of `rows`. */
  ghost predicate Gathers(sent: seq<Row>, before: seq<Row>, rows: seq<Row>) {
    forall r :: r in sent <==> r in before || r in rows
  }

  lemma GathersOneMore(sent: seq<Row>, before: seq<Row>, front: seq<Row>, row: Row, rows: seq<Row>)
    requires Gathers(sent, before, front) && rows == front + [row]
    ensures Gathers(if row in sent then sent else sent + [row], before, rows)
  {
  }

  /** One poll sends exactly the rows of its listing that were not sent before. */
  lemma {:induction false} FeedSendsOnce(st: State, all: set<Row>, since: int, rows: seq<Row>)
    requires Table(all) && Sound(st, all, since) && Ordered(rows)
    requires forall i :: 0 <= i < |rows| ==> rows[i] in all && rows[i].at >= st.lastSeen && rows[i].at >= since
    ensures Sound(Feed(st, rows), all, since)
    ensures Gathers(Feed(st, rows).sent, st.sent, rows)
    ensures Feed(st, rows).lastSeen == if rows == [] then st.lastSeen else rows[|rows| - 1].at
  {
    if rows != [] {
      var front, row := rows[..|rows| - 1], rows[|rows| - 1];
      FeedSendsOnce(st, all, since, front);
      OneMoreRow(st, Feed(st, front), all, since, front, row, rows);
    }
  }

  lemma OneMoreRow(st: State, mid: State, all: set<Row>, since: int, front: seq<Row>, row: Row, rows: seq<Row>)
    requires Table(all) && Sound(mid, all, since) && Gathers(mid.sent, st.sent, front) && rows == front + [row]
    requires row in all && row.at >= mid.lastSeen && row.at >= since
    ensures Sound(Step(mid, row), all, since) && Gathers(Step(mid, row).sent, st.sent, rows)
    ensures Step(mid, row).lastSeen == row.at
  {
    StepSendsOnce(mid, all, since, row);
    GathersOneMore(mid.sent, st.sent, front, row, rows);
  }

  // ----- Runs of polls -----------------------------------------------------------------------------

  /** One poll: the rows visible at that moment and the query's answer. */
  datatype Poll = Poll(visible: set<Row>, rows: seq<Row>)

  ghost predicate Listing(p: Poll, lastSeen: int) {
    Ordered(p.rows) && forall r :: r in p.rows <==> r in p.visible && r.at >= lastSeen
  }

  ghost function Polled(since: int, polls: seq<Poll>): State {
    if polls == [] then Start(since) else Feed(Polled(since, polls[..|polls| - 1]), polls[|polls| - 1].rows)
  }

  /** Every poll lists the rows visible to it from the cursor on. */
  ghost predicate Listings(since: int, polls: seq<Poll>, all: set<Row>) {
    forall k :: 0 <= k < |polls| ==>
      Listing(polls[k], Polled(since, polls[..k]).lastSeen) && polls[k].visible <= all
  }

  /** Some poll could see the row, and its cursor had not passed the row's time. */
  ghost predicate Caught(since: int, polls: seq<Poll>, r: Row) {
    exists k :: 0 <= k < |polls| && r in polls[k].visible && r.at >= Polled(since, polls[..k]).lastSeen
  }

  lemma CaughtOneMore(since: int, polls: seq<Poll>, r: Row)
    requires polls != []
    ensures var n := |polls| - 1;
            Caught(since, polls, r)
            <==> Caught(since, polls[..n], r) || (r in polls[n].visible && r.at >= Polled(since, polls[..n]).lastSeen)
  {
    var n := |polls| - 1;
    assert forall k :: 0 <= k < n ==> polls[..n][k] == polls[k] && polls[..n][..k] == polls[..k];
  }

  lemma ListingsBefore(since: int, polls: seq<Poll>, all: set<Row>)
    requires polls != [] && Listings(since, polls, all)
    ensures Listings(since, polls[..|polls| - 1], all)
  {
    var n := |polls| - 1;
    assert forall k :: 0 <= k < n ==> polls[..n][k] == polls[k] && polls[..n][..k] == polls[..k];
  }

  /** After every poll the stream has sent, in order of time and none twice, exactly the rows that
      some poll caught, although it remembers 2000 ids only. Lost are those rows that become visible
      only when a newer one has been sent. */
  lemma {:induction false} SentOnceIffCaught(since: int, polls: seq<Poll>, all: set<Row>)
    requires Table(all) && Listings(since, polls, all)
    ensures var st := Polled(since, polls);
            && Sound(st, all, since) && st.lastSeen >= since
            && Ordered(st.sent) && Distinct(st.sent)
            && forall r :: r in st.sent <==> Caught(since, polls, r)
  {
    if polls != [] {
      var n := |polls| - 1;
      var front := polls[..n];
      ListingsBefore(since, polls, all);
      SentOnceIffCaught(since, front, all);
      var st := Polled(since, front);
      assert Listing(polls[n], st.lastSeen);
      forall i | 0 <= i < |polls[n].rows|
        ensures polls[n].rows[i] in all && polls[n].rows[i].at >= st.lastSeen
      {
        assert polls[n].rows[i] in polls[n].rows;
      }
      FeedSendsOnce(st, all, since, polls[n].rows);
      forall r ensures r in Polled(since, polls).sent <==> Caught(since, polls, r) {
        CaughtOneMore(since, polls, r);
      }
    }
  }

  /** A row that is new at a poll is not older than the newest sent before it (or is older than the
      stream's start). */
  ghost predicate NoneLate(since: int, polls: seq<Poll>) {
    forall k, r :: 0 <= k < |polls| && r in polls[k].visible ==>
      r.at < since || r.at >= Polled(since, polls[..k]).lastSeen || (k > 0 && r in polls[k - 1].visible)
  }

  lemma {:induction false} VisibleIsCaught(since: int, polls: seq<Poll>, k: nat, r: Row)
    requires NoneLate(since, polls) && k < |polls| && r in polls[k].visible && r.at >= since
    ensures Caught(since, polls, r)
  {
    if r.at < Polled(since, polls[..k]).lastSeen {
      VisibleIsCaught(since, polls, k - 1, r);
    }
  }

  /** So, if no row is late, every row that was visible since the stream's start is sent exactly
      once. */
  lemma ExactlyOnce(since: int, polls: seq<Poll>, all: set<Row>)
    requires Table(all) && Listings(since, polls, all) && NoneLate(since, polls)
    ensures Distinct(Polled(since, polls).sent)
    ensures forall k, r :: 0 <= k < |polls| && r in polls[k].visible && r.at >= since ==> r in Polled(since, polls).sent
  {
    SentOnceIffCaught(since, polls, all);
    forall k, r | 0 <= k < |polls| && r in polls[k].visible && r.at >= since ensures r in Polled(since, polls).sent {
      VisibleIsCaught(since, polls, k, r);
    }
  }

  // ----- The capacity is exact ------------------------------------------------------------------------

  lemma {:induction false} FirstPollSendsAll(since: int, rows: seq<Row>)
    requires Ordered(rows) && Distinct(rows) && forall i :: 0 <= i < |rows| ==> rows[i].at >= since
    ensures Feed(Start(since), rows)
            == State(if rows == [] then since else rows[|rows| - 1].at, Ids(LastRows(rows)), rows)
  {
    if rows != [] {
      var front, row := rows[..|rows| - 1], rows[|rows| - 1];
      FirstPollSendsAll(since, front);
      NewRowIsForgotten(front, row, rows);
      RememberLast(front, row);
    }
  }

  lemma NewRowIsForgotten(front: seq<Row>, row: Row, rows: seq<Row>)
    requires rows == front + [row] && Distinct(rows)
    ensures row.id !in Ids(LastRows(front))
  {
    assert rows[|front|] == row && forall i :: 0 <= i < |front| ==> rows[i] == front[i];
    QueueMisses(front, row.id);
  }

  lemma {:induction false} RememberedRowsAreSkipped(st: State, rows: seq<Row>)
    requires forall i :: 0 <= i < |rows| ==> rows[i].id in st.queue
    ensures Feed(st, rows) == st
  {
    if rows != [] {
      RememberedRowsAreSkipped(st, rows[..|rows| - 1]);
    }
  }

  /** An id that is neither remembered nor among the rows is not remembered after them. */
  lemma {:induction false} StaysForgotten(st: State, rows: seq<Row>, id: Id)
    requires id !in st.queue && forall i :: 0 <= i < |rows| ==> rows[i].id != id
    ensures id !in Feed(st, rows).queue
  {
    if rows != [] {
      var front, mid := rows[..|rows| - 1], Feed(st, rows[..|rows| - 1]);
      StaysForgotten(st, front, id);
      assert mid.queue != [] ==> forall x :: x in mid.queue[1..] ==> x in mid.queue;
    }
  }

  lemma {:induction false} SentGrows(st: State, rows: seq<Row>, k: nat)
    requires k <= |rows|
    ensures Feed(st, rows[..k]).sent <= Feed(st, rows).sent
  {
    if k < |rows| {
      assert rows[..|rows| - 1][..k] == rows[..k];
      SentGrows(st, rows[..|rows| - 1], k);
    } else {
      assert rows[..k] == rows;
    }
  }

  /** A forgotten row is sent again, wherever it stands in a listing. */
  lemma ForgottenIsSent(st: State, rows: seq<Row>, k: nat)
    requires k < |rows| && Distinct(rows) && rows[k].id !in st.queue
    ensures exists j :: |st.sent| <= j < |Feed(st, rows).sent| && Feed(st, rows).sent[j] == rows[k]
    ensures st.sent <= Feed(st, rows).sent
  {
    var front := rows[..k];
    StaysForgotten(st, front, rows[k].id);
    SentGrows(st, front, 0);
    assert front[..0] == [];
    assert rows[..k + 1][..k] == front;
    var here := Feed(st, rows[..k + 1]).sent;
    assert here == Feed(st, front).sent + [rows[k]];
    SentGrows(st, rows, k + 1);
    assert Feed(st, rows).sent[|here| - 1] == rows[k];
  }

  /** Poll the same table twice: some row is sent twice exactly when more than 2000 rows share the
      newest time, in whatever order the second query, from the cursor on, returns them. `m` counts
      them. */
  lemma SecondPollRepeatsIff(since: int, rows: seq<Row>, m: nat, again: seq<Row>)
    requires rows != [] && Ordered(rows) && Distinct(rows) && forall i :: 0 <= i < |rows| ==> rows[i].at >= since
    requires 1 <= m <= |rows| && forall i :: 0 <= i < |rows| ==>
               (rows[i].at == rows[|rows| - 1].at <==> i >= |rows| - m)
    requires Distinct(again) && forall r :: r in again <==> r in rows[|rows| - m..]
    ensures var first := Feed(Start(since), rows);
            Distinct(Feed(first, again).sent) <==> m <= SSE_SEEN_MAX
  {
    var first := Feed(Start(since), rows);
    FirstPollSendsAll(since, rows);
    if m <= SSE_SEEN_MAX {
      AllNewestRemembered(rows, m, again);
      RememberedRowsAreSkipped(first, again);
    } else {
      OldestOfNewestForgotten(rows, m);
      assert rows[|rows| - m..][0] in again;
      var k :| 0 <= k < |again| && again[k] == rows[|rows| - m];
      ForgottenIsSent(first, again, k);
      SentTwice(rows, |rows| - m, Feed(first, again).sent);
    }
  }

  lemma AllNewestRemembered(rows: seq<Row>, m: nat, again: seq<Row>)
    requires m <= |rows| && m <= SSE_SEEN_MAX && forall r :: r in again ==> r in rows[|rows| - m..]
    ensures forall i :: 0 <= i < |again| ==> again[i].id in Ids(LastRows(rows))
  {
    forall i | 0 <= i < |again| ensures again[i].id in Ids(LastRows(rows)) {
      assert again[i] in again;
      var j :| 0 <= j < m && rows[|rows| - m..][j] == again[i];
      QueueHolds(rows, |rows| - m + j);
    }
  }

  lemma OldestOfNewestForgotten(rows: seq<Row>, m: nat)
    requires SSE_SEEN_MAX < m <= |rows| && Distinct(rows)
    ensures rows[|rows| - m].id !in Ids(LastRows(rows))
  {
    QueueMisses(rows, rows[|rows| - m].id);
  }

  lemma SentTwice(rows: seq<Row>, k: nat, sent: seq<Row>)
    requires k < |rows| && rows <= sent && exists j :: |rows| <= j < |sent| && sent[j] == rows[k]
    ensures !Distinct(sent)
  {
    assert sent[k] == rows[k];
  }
}
