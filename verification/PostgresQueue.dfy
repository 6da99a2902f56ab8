/** The durable suggestion queue: a table whose rows are claimed oldest update
    first.  Rows are always pending, so the status column is left out; the order
    of `rows` is the table's own and means nothing. */
module PostgresQueue {
  import opened Sorting
  import opened Suggestions

  predicate ByStamp(a: Queued, b: Queued) {
    a.updatedAt <= b.updatedAt
  }

  function EffectiveLimit(limit: int): (n: nat)
    ensures n > 0
  {
    if limit <= 0 then 50 else limit
  }

  function Prefix<T>(s: seq<T>, n: nat): seq<T> {
    if n <= |s| then s[..n] else s
  }

  /** The oldest rows by update time. */
  function Claimed(rows: seq<Queued>, limit: int): seq<Queued> {
    Prefix(StableSort(rows, ByStamp), EffectiveLimit(limit))
  }

  function Without(rows: seq<Queued>, id: string): seq<Queued> {
    if rows == [] then []
    else (if rows[0].id == id then [] else [rows[0]]) + Without(rows[1..], id)
  }

  function WithFailure(rows: seq<Queued>, id: string, why: string, at: int): seq<Queued> {
    if rows == [] then []
    else [if rows[0].id == id then Failed(rows[0], why, at) else rows[0]] + WithFailure(rows[1..], id, why, at)
  }

  function AfterEvent(rows: seq<Queued>, ev: Event): seq<Queued> {
    match ev
    case Arrive(row) => rows + [row]
    case Mark(id, s, at) => if s.Accepted? then Without(rows, id) else WithFailure(rows, id, Remark(s), at)
  }

  class Table {
    var rows: seq<Queued>

    constructor ()
      ensures rows == []
    {
      rows := [];
    }

    method Enqueue(item: Queued, id: string, now: int)
      modifies this
      ensures rows == AfterEvent(old(rows), Arrive(Stored(item, id, now).(attempts := 0, lastError := "")))
    {
      rows := rows + [item.(id := id, attempts := 0, lastError := "", createdAt := now, updatedAt := now)];
    }

    method Claim(limit: int) returns (items: seq<Queued>)
      ensures items == Claimed(rows, limit)
    {
      var ordered := StableSort(rows, ByStamp);
      items := [];
      while |items| < |ordered| && |items| < EffectiveLimit(limit)
        invariant |items| <= |ordered| && |items| <= EffectiveLimit(limit)
        invariant items == ordered[..|items|]
        decreases |ordered| - |items|
      {
        items := items + [ordered[|items|]];
      }
    }

    method MarkResult(id: string, s: Submission, at: int)
      modifies this
      ensures rows == AfterEvent(old(rows), Mark(id, s, at))
    {
      if s.Accepted? { rows := Without(rows, id); } else { rows := WithFailure(rows, id, Remark(s), at); }
    }
  }

  /** Submits the suggestion of every claimed row and records what became of it. */
  method ReplayQueuedSuggestions(table: Table, limit: int, outcomes: nat -> Submission, clock: nat -> int)
    returns (items: seq<Queued>, submitted: seq<Suggestion>)
    modifies table
    ensures items == Claimed(old(table.rows), limit)
    ensures Rebuilt(items, submitted)
    ensures table.rows == AfterEvents(AfterEvent, old(table.rows), MarksOf(items, outcomes, clock, |items|))
  {
    items := table.Claim(limit);
    submitted := [];
    for k := 0 to |items|
      invariant |submitted| == k && Rebuilt(items[..k], submitted)
      invariant table.rows == AfterEvents(AfterEvent, old(table.rows), MarksOf(items, outcomes, clock, k))
    {
      submitted := RebuildNext(items, submitted);
      EventsSnoc(AfterEvent, old(table.rows), MarksOf(items, outcomes, clock, k),
                 Mark(items[k].id, outcomes(k), clock(k)));
      table.MarkResult(items[k].id, outcomes(k), clock(k));
    }
    assert items[..|items|] == items;
  }

  // -------------------------------------------------------------------- round trip

  lemma EventOrigin(rows: seq<Queued>, ev: Event, q: Queued)
    requires q in AfterEvent(rows, ev)
    ensures HasOrigin(rows, ev, q)
  {
    match ev
    case Arrive(row) =>
      if q in rows { assert Retried(q, q); }
    case Mark(id, s, at) =>
      if s.Accepted? {
        WithoutFacts(rows, id);
        assert q in rows && Retried(q, q);
      } else {
        FailureFacts(rows, id, Remark(s), at);
        var i :| 0 <= i < |rows| && WithFailure(rows, id, Remark(s), at)[i] == q;
        assert rows[i] in rows && Retried(q, rows[i]);
      }
  }

  /** After any enqueues, marks and replays from an empty table, what the next
      replay submits under an ID is the suggestion that was built for it. */
  lemma SubmittedIsBuilt(events: seq<Event>, limit: int, p: Policy, a: Action, lower: string -> string,
                         id: string, now: int, q: Queued)
    requires NewIds(events) && BuildSuggestion(p, a, lower).Built? && Arrive(RowOf(p, a, lower, id, now)) in events
    requires q in Claimed(AfterEvents(AfterEvent, [], events), limit) && q.id == id
    ensures FromQueued(q) == BuildSuggestion(p, a, lower).suggestion.(id := id)
  {
    ClaimedIsListed(AfterEvents(AfterEvent, [], events), limit, q);
    forall rs, ev, r | r in AfterEvent(rs, ev) ensures HasOrigin(rs, ev, r) { EventOrigin(rs, ev, r); }
    EventsOrigin(AfterEvent, [], events, q);
    ArrivedRoundTrip(events, p, a, lower, id, now, q);
  }

  lemma ClaimedIsListed(rows: seq<Queued>, limit: int, q: Queued)
    requires q in Claimed(rows, limit)
    ensures q in rows
  {
    var v := StableSort(rows, ByStamp);
    assert q in v;
    assert q in multiset(v) && q in multiset(rows);
  }

  // ------------------------------------------------------------------------ rank

  /** How many rows were updated before time `t`. */
  function Rank(rows: seq<Queued>, t: int): nat {
    if rows == [] then 0 else (if rows[0].updatedAt < t then 1 else 0) + Rank(rows[1..], t)
  }

  lemma {:induction false} RankAppend(a: seq<Queued>, b: seq<Queued>, t: int)
    ensures Rank(a + b, t) == Rank(a, t) + Rank(b, t)
  {
    if a == [] {
      assert a + b == b;
    } else {
      RankAppend(a[1..], b, t);
      assert (a + b)[1..] == a[1..] + b;
    }
  }

  lemma {:induction false} RankInsert(x: Queued, s: seq<Queued>, t: int)
    ensures Rank(Insert(x, s, ByStamp), t) == Rank([x] + s, t)
  {
    assert ([x] + s)[1..] == s;
    if s != [] && !ByStamp(x, s[0]) {
      RankInsert(x, s[1..], t);
      assert ([x] + s[1..])[1..] == s[1..];
      assert Insert(x, s, ByStamp)[1..] == Insert(x, s[1..], ByStamp);
    }
  }

  lemma {:induction false} RankSort(s: seq<Queued>, t: int)
    ensures Rank(StableSort(s, ByStamp), t) == Rank(s, t)
  {
    if s != [] {
      RankSort(s[1..], t);
      var tail := StableSort(s[1..], ByStamp);
      RankInsert(s[0], tail, t);
      assert ([s[0]] + tail)[1..] == tail;
    }
  }

  lemma {:induction false} RankAllBefore(s: seq<Queued>, t: int)
    requires forall i :: 0 <= i < |s| ==> s[i].updatedAt < t
    ensures Rank(s, t) == |s|
  {
    if s != [] { RankAllBefore(s[1..], t); }
  }

  lemma {:induction false} RankNoneBefore(s: seq<Queued>, t: int)
    requires forall i :: 0 <= i < |s| ==> s[i].updatedAt >= t
    ensures Rank(s, t) == 0
  {
    if s != [] { RankNoneBefore(s[1..], t); }
  }

  ghost predicate StrictlyByStamp(v: seq<Queued>) {
    forall i, j :: 0 <= i < j < |v| ==> v[i].updatedAt < v[j].updatedAt
  }

  lemma RankSplit(left: seq<Queued>, right: seq<Queued>, t: int)
    requires forall i :: 0 <= i < |left| ==> left[i].updatedAt < t
    requires forall i :: 0 <= i < |right| ==> right[i].updatedAt >= t
    ensures Rank(left + right, t) == |left|
  {
    RankAllBefore(left, t);
    RankNoneBefore(right, t);
    RankAppend(left, right, t);
  }

  lemma RankInOrder(v: seq<Queued>, k: nat)
    requires StrictlyByStamp(v) && k < |v|
    ensures Rank(v, v[k].updatedAt) == k
  {
    var t := v[k].updatedAt;
    forall i | 0 <= i < |v[k..]| ensures v[k..][i].updatedAt >= t {
      if i > 0 { assert v[k].updatedAt < v[k + i].updatedAt; }
    }
    RankSplit(v[..k], v[k..], t);
    assert v == v[..k] + v[k..];
  }

  // ------------------------------------------------------------------ well-formed

  ghost predicate Apart(a: Queued, b: Queued) {
    a.id != b.id && a.updatedAt != b.updatedAt
  }

  /** IDs are unique, update times are distinct, and none is later than `clock`. */
  ghost predicate RowsOk(rows: seq<Queued>, clock: int) {
    && (forall i, j :: 0 <= i < j < |rows| ==> Apart(rows[i], rows[j]))
    && (forall i :: 0 <= i < |rows| ==> rows[i].updatedAt <= clock)
  }

  lemma {:induction false} WithoutFacts(rows: seq<Queued>, id: string)
    ensures forall q :: q in Without(rows, id) <==> q in rows && q.id != id
    ensures |Without(rows, id)| <= |rows|
  {
    if rows != [] {
      WithoutFacts(rows[1..], id);
      assert rows == [rows[0]] + rows[1..];
    }
  }

  lemma {:induction false} WithoutOk(rows: seq<Queued>, id: string, clock: int)
    requires RowsOk(rows, clock)
    ensures RowsOk(Without(rows, id), clock)
  {
    if rows != [] {
      var head, rest := rows[0], rows[1..];
      var r := Without(rest, id);
      WithoutOk(rest, id, clock);
      if head.id == id {
        assert Without(rows, id) == r;
      } else {
        assert Without(rows, id) == [head] + r;
        WithoutFacts(rest, id);
        forall i | 0 <= i < |r| ensures Apart(head, r[i]) && r[i].updatedAt <= clock {
          assert r[i] in rest;
          var k :| 0 <= k < |rest| && rest[k] == r[i];
          assert rows[k + 1] == r[i] && Apart(rows[0], rows[k + 1]);
        }
      }
    }
  }

  lemma {:induction false} FailureFacts(rows: seq<Queued>, id: string, why: string, at: int)
    ensures
      var r := WithFailure(rows, id, why, at);
      && |r| == |rows|
      && forall i :: 0 <= i < |rows| ==> r[i] == if rows[i].id == id then Failed(rows[i], why, at) else rows[i]
  {
    if rows != [] { FailureFacts(rows[1..], id, why, at); }
  }

  lemma {:induction false} AbsentId(rows: seq<Queued>, id: string, why: string, at: int)
    requires forall i :: 0 <= i < |rows| ==> rows[i].id != id
    ensures Without(rows, id) == rows && WithFailure(rows, id, why, at) == rows
  {
    if rows != [] { AbsentId(rows[1..], id, why, at); }
  }

  /** Marking a row that was ahead of time `t` moves everyone behind it up by one,
      whether it was accepted or not. */
  lemma {:induction false} MarkLowersRank(rows: seq<Queued>, y: Queued, s: Submission, at: int, t: int)
    requires forall i, j :: 0 <= i < j < |rows| ==> rows[i].id != rows[j].id
    requires y in rows && y.updatedAt < t <= at
    ensures Rank(AfterEvent(rows, Mark(y.id, s, at)), t) + 1 == Rank(rows, t)
  {
    var rest := rows[1..];
    assert rows == [rows[0]] + rest;
    if rows[0].id == y.id {
      assert y == rows[0] by { var k :| 0 <= k < |rows| && rows[k] == y; }
      AbsentId(rest, y.id, Remark(s), at);
      assert AfterEvent(rows, Mark(y.id, s, at)) == if s.Accepted? then rest else [Failed(y, Remark(s), at)] + rest;
      assert ([Failed(y, Remark(s), at)] + rest)[1..] == rest;
    } else {
      assert y in rest;
      MarkLowersRank(rest, y, s, at, t);
      var tail := AfterEvent(rest, Mark(y.id, s, at));
      assert ([rows[0]] + tail)[1..] == tail;
    }
  }

  lemma MarkOk(rows: seq<Queued>, clock: int, id: string, s: Submission, at: int)
    requires RowsOk(rows, clock) && at > clock
    ensures RowsOk(AfterEvent(rows, Mark(id, s, at)), at)
    ensures forall q :: q in rows && q.id != id ==> q in AfterEvent(rows, Mark(id, s, at))
  {
    if s.Accepted? {
      WithoutOk(rows, id, clock);
      WithoutFacts(rows, id);
    } else {
      FailureFacts(rows, id, Remark(s), at);
      var r := WithFailure(rows, id, Remark(s), at);
      forall q | q in rows && q.id != id ensures q in r {
        var i :| 0 <= i < |rows| && rows[i] == q;
        assert r[i] == q;
      }
    }
  }

  // ---------------------------------------------------------------------- rounds

  /** A replay round: the claimed rows are marked in order, every event later
      than the one before, with new rows arriving at any point. */
  ghost predicate RoundOk(rows: seq<Queued>, clock: int, batch: seq<Queued>, events: seq<Event>)
    decreases |events|
  {
    if events == [] then batch == []
    else match events[0]
      case Arrive(row) =>
        row.updatedAt > clock && (forall q :: q in rows ==> q.id != row.id) &&
        RoundOk(rows + [row], row.updatedAt, batch, events[1..])
      case Mark(id, s, at) =>
        at > clock && batch != [] && batch[0].id == id &&
        RoundOk(AfterEvent(rows, events[0]), at, batch[1..], events[1..])
  }

  function ClockAfter(clock: int, events: seq<Event>): int {
    if events == [] then clock
    else match events[|events| - 1] case Arrive(row) => row.updatedAt case Mark(_, _, at) => at
  }

  lemma ClockTail(clock: int, events: seq<Event>)
    requires events != []
    ensures
      var first := match events[0] case Arrive(row) => row.updatedAt case Mark(_, _, at) => at;
      ClockAfter(clock, events) == ClockAfter(first, events[1..])
  {
  }

  /** Over a round, a row behind the whole batch stays where it is and moves up
      by exactly the batch's size. */
  lemma {:induction false} RoundMovesUp(rows: seq<Queued>, clock: int, batch: seq<Queued>, events: seq<Event>,
                                        x: Queued)
    requires RowsOk(rows, clock) && RoundOk(rows, clock, batch, events) && x in rows
    requires forall i :: 0 <= i < |batch| ==> batch[i] in rows && batch[i].updatedAt < x.updatedAt
    requires forall i, j :: 0 <= i < j < |batch| ==> batch[i].id != batch[j].id
    ensures
      var after := AfterEvents(AfterEvent, rows, events);
      && RowsOk(after, ClockAfter(clock, events)) && x in after
      && Rank(after, x.updatedAt) + |batch| == Rank(rows, x.updatedAt)
    decreases |events|
  {
    if events != [] {
      ClockTail(clock, events);
      match events[0]
      case Arrive(row) =>
        ArriveStep(rows, clock, row, x);
        forall i | 0 <= i < |batch| ensures batch[i] in rows + [row] { assert batch[i] in rows; }
        RoundMovesUp(rows + [row], row.updatedAt, batch, events[1..], x);
      case Mark(id, s, at) =>
        MarkStep(rows, clock, batch, s, at, x);
        RoundMovesUp(AfterEvent(rows, events[0]), at, batch[1..], events[1..], x);
    }
  }

  lemma ArriveStep(rows: seq<Queued>, clock: int, row: Queued, x: Queued)
    requires RowsOk(rows, clock) && x in rows && row.updatedAt > clock && forall q :: q in rows ==> q.id != row.id
    ensures RowsOk(rows + [row], row.updatedAt) && x in rows + [row]
    ensures Rank(rows + [row], x.updatedAt) == Rank(rows, x.updatedAt)
  {
    var k :| 0 <= k < |rows| && rows[k] == x;
    RankAppend(rows, [row], x.updatedAt);
    assert [row][1..] == [];
    forall i | 0 <= i < |rows| ensures Apart(rows[i], row) { assert rows[i] in rows; }
  }

  lemma MarkStep(rows: seq<Queued>, clock: int, batch: seq<Queued>, s: Submission, at: int, x: Queued)
    requires RowsOk(rows, clock) && x in rows && batch != [] && at > clock
    requires forall i :: 0 <= i < |batch| ==> batch[i] in rows && batch[i].updatedAt < x.updatedAt
    requires forall i, j :: 0 <= i < j < |batch| ==> batch[i].id != batch[j].id
    ensures
      var after := AfterEvent(rows, Mark(batch[0].id, s, at));
      && RowsOk(after, at) && x in after && Rank(after, x.updatedAt) + 1 == Rank(rows, x.updatedAt)
      && forall i :: 0 <= i < |batch[1..]| ==> batch[1..][i] in after
  {
    var y := batch[0];
    var k :| 0 <= k < |rows| && rows[k] == x;
    var l :| 0 <= l < |rows| && rows[l] == y;
    assert k != l;
    assert (k < l ==> Apart(rows[k], rows[l])) && (l < k ==> Apart(rows[l], rows[k]));
    MarkOk(rows, clock, y.id, s, at);
    MarkLowersRank(rows, y, s, at, x.updatedAt);
    forall i | 0 <= i < |batch[1..]| ensures batch[1..][i] in AfterEvent(rows, Mark(y.id, s, at)) {
      assert batch[1..][i] == batch[i + 1] && batch[0].id != batch[i + 1].id;
    }
  }

  /** The claim takes exactly the rows of rank below the limit. */
  lemma ClaimedByRank(rows: seq<Queued>, clock: int, limit: int, x: Queued)
    requires RowsOk(rows, clock) && x in rows
    ensures
      var batch := Claimed(rows, limit);
      && (x in batch <==> Rank(rows, x.updatedAt) < EffectiveLimit(limit))
      && (x !in batch ==>
            && |batch| == EffectiveLimit(limit)
            && forall i :: 0 <= i < |batch| ==> batch[i] in rows && batch[i].updatedAt < x.updatedAt)
      && forall i, j :: 0 <= i < j < |batch| ==> batch[i].id != batch[j].id
  {
    var v := StableSort(rows, ByStamp);
    var n := EffectiveLimit(limit);
    SortedRows(rows, clock, v);
    assert x in v;
    var k :| 0 <= k < |v| && v[k] == x;
    assert Rank(rows, x.updatedAt) == k by {
      RankInOrder(v, k);
      RankSort(rows, x.updatedAt);
    }
    PrefixFacts(v, n, k);
  }

  /** A claim takes the oldest rows first, all of them or as many as asked for, and
      fifty when asked for none or fewer. */
  lemma ClaimOldestFirst(rows: seq<Queued>, clock: int, limit: int)
    requires RowsOk(rows, clock)
    ensures
      var batch, n := Claimed(rows, limit), if limit <= 0 then 50 else limit;
      && |batch| == (if |rows| < n then |rows| else n)
      && (forall i, j :: 0 <= i < j < |batch| ==> batch[i].updatedAt < batch[j].updatedAt)
      && (forall q, i :: q in rows && q !in batch && 0 <= i < |batch| ==> batch[i].updatedAt < q.updatedAt)
  {
    var v := StableSort(rows, ByStamp);
    SortedRows(rows, clock, v);
    SameLength(rows, v);
    forall q, i | q in rows && q !in Claimed(rows, limit) && 0 <= i < |Claimed(rows, limit)|
      ensures Claimed(rows, limit)[i].updatedAt < q.updatedAt
    {
      ClaimedByRank(rows, clock, limit, q);
    }
  }

  lemma SameLength(a: seq<Queued>, b: seq<Queued>)
    requires multiset(a) == multiset(b)
    ensures |a| == |b|
  {
    assert |multiset(a)| == |a| && |multiset(b)| == |b|;
  }

  lemma PrefixFacts(v: seq<Queued>, n: nat, k: nat)
    requires StrictlyByStamp(v) && k < |v|
    requires forall i, j :: 0 <= i < j < |v| ==> v[i].id != v[j].id
    ensures
      var batch := Prefix(v, n);
      && (v[k] in batch <==> k < n)
      && (k >= n ==> |batch| == n)
      && (forall i :: 0 <= i < |batch| ==> batch[i] in v && (k >= n ==> batch[i].updatedAt < v[k].updatedAt))
      && forall i, j :: 0 <= i < j < |batch| ==> batch[i].id != batch[j].id
  {
    var batch := Prefix(v, n);
    assert forall i :: 0 <= i < |batch| ==> batch[i] == v[i];
    if k < n { assert batch[k] == v[k]; }
  }

  lemma SortedRows(rows: seq<Queued>, clock: int, v: seq<Queued>)
    requires RowsOk(rows, clock) && v == StableSort(rows, ByStamp)
    ensures StrictlyByStamp(v)
    ensures forall q :: q in v <==> q in rows
    ensures forall i, j :: 0 <= i < j < |v| ==> v[i].id != v[j].id
  {
    StableSortCorrect(rows, ByStamp);
    forall q ensures q in v <==> q in rows {
      assert q in v <==> q in multiset(v);
      assert q in rows <==> q in multiset(rows);
    }
    forall i, j | 0 <= i < j < |v| ensures v[i].updatedAt < v[j].updatedAt && v[i].id != v[j].id {
      DistinctInSort(rows, clock, v, i, j);
      assert ByStamp(v[i], v[j]);
    }
  }

  lemma DistinctInSort(rows: seq<Queued>, clock: int, v: seq<Queued>, i: nat, j: nat)
    requires RowsOk(rows, clock)
    requires multiset(v) == multiset(rows) && i < j < |v|
    ensures v[i].updatedAt != v[j].updatedAt && v[i].id != v[j].id
  {
    OnceEach(rows, v[i]);
    assert v == v[..i] + [v[i]] + v[i + 1..j] + [v[j]] + v[j + 1..];
    assert v[i] != v[j];
    assert v[i] in multiset(rows) && v[j] in multiset(rows);
    var a :| 0 <= a < |rows| && rows[a] == v[i];
    var b :| 0 <= b < |rows| && rows[b] == v[j];
    assert a < b || b < a;
  }

  lemma {:induction false} OnceEach(rows: seq<Queued>, x: Queued)
    requires forall i, j :: 0 <= i < j < |rows| ==> rows[i].id != rows[j].id
    ensures multiset(rows)[x] <= 1
  {
    if rows != [] {
      OnceEach(rows[1..], x);
      assert rows == [rows[0]] + rows[1..];
      assert rows[0] !in rows[1..];
    }
  }

  // -------------------------------------------------------------------- fairness

  ghost predicate Waits(rows: seq<Queued>, limit: int, x: Queued) {
    x in rows && x !in Claimed(rows, limit)
  }

  lemma OneRound(rows: seq<Queued>, clock: int, limit: int, events: seq<Event>, x: Queued)
    requires RowsOk(rows, clock) && RoundOk(rows, clock, Claimed(rows, limit), events) && x in rows
    requires Rank(rows, x.updatedAt) >= EffectiveLimit(limit)
    ensures
      var after := AfterEvents(AfterEvent, rows, events);
      && RowsOk(after, ClockAfter(clock, events)) && x in after && Waits(rows, limit, x)
      && Rank(after, x.updatedAt) + EffectiveLimit(limit) == Rank(rows, x.updatedAt)
  {
    ClaimedByRank(rows, clock, limit, x);
    RoundMovesUp(rows, clock, Claimed(rows, limit), events, x);
  }

  /** A run of replay rounds: the tables and clocks between them. */
  datatype Run = Run(tables: seq<seq<Queued>>, clocks: seq<int>, rounds: seq<seq<Event>>)

  ghost predicate RoundAt(run: Run, limit: int, j: nat)
    requires j < |run.rounds| && |run.tables| == |run.clocks| == |run.rounds| + 1
  {
    && RoundOk(run.tables[j], run.clocks[j], Claimed(run.tables[j], limit), run.rounds[j])
    && run.tables[j + 1] == AfterEvents(AfterEvent, run.tables[j], run.rounds[j])
    && run.clocks[j + 1] == ClockAfter(run.clocks[j], run.rounds[j])
  }

  ghost predicate RunOk(run: Run, limit: int) {
    && |run.tables| == |run.clocks| == |run.rounds| + 1
    && RowsOk(run.tables[0], run.clocks[0])
    && forall j: nat :: j < |run.rounds| ==> RoundAt(run, limit, j)
  }

  /** Row `x` is still in the table after `j` rounds, `j` batches further up. */
  lemma {:induction false} MovesUpEachRound(run: Run, limit: int, x: Queued, j: nat, passed: nat)
    requires RunOk(run, limit) && j <= |run.rounds| && x in run.tables[0]
    requires passed == j * EffectiveLimit(limit) && passed <= Rank(run.tables[0], x.updatedAt)
    ensures x in run.tables[j] && RowsOk(run.tables[j], run.clocks[j])
    ensures Rank(run.tables[j], x.updatedAt) + passed == Rank(run.tables[0], x.updatedAt)
  {
    if j > 0 {
      var before := (j - 1) * EffectiveLimit(limit);
      assert passed == before + EffectiveLimit(limit);
      MovesUpEachRound(run, limit, x, j - 1, before);
      assert RoundAt(run, limit, j - 1);
      OneRound(run.tables[j - 1], run.clocks[j - 1], limit, run.rounds[j - 1], x);
    }
  }

  lemma ClaimedWhen(run: Run, limit: int, x: Queued, j: nat, passed: nat)
    requires RunOk(run, limit) && j <= |run.rounds| && x in run.tables[0]
    requires passed == j * EffectiveLimit(limit) && passed <= Rank(run.tables[0], x.updatedAt)
    ensures x in run.tables[j]
    ensures x in Claimed(run.tables[j], limit) <==> Rank(run.tables[0], x.updatedAt) < passed + EffectiveLimit(limit)
  {
    MovesUpEachRound(run, limit, x, j, passed);
    ClaimedByRank(run.tables[j], run.clocks[j], limit, x);
  }

  /** In which round, counting from zero, the row at rank `r` has its turn. */
  function TurnOf(r: nat, n: nat): (k: nat)
    requires n > 0
    ensures k * n <= r < k * n + n
  {
    assert r == (r / n) * n + r % n;
    r / n
  }

  /** A row with `r` rows ahead of it is submitted in round `r / limit`, counting
      from zero, and in none before: at most `ceil((r + 1) / limit)` rounds,
      whatever fails ahead of it and whatever arrives behind it. */
  lemma ReplayFair(run: Run, limit: int, x: Queued, j: nat)
    requires RunOk(run, limit) && x in run.tables[0]
    requires j <= TurnOf(Rank(run.tables[0], x.updatedAt), EffectiveLimit(limit)) && j <= |run.rounds|
    ensures x in run.tables[j]
    ensures x in Claimed(run.tables[j], limit) <==> j == TurnOf(Rank(run.tables[0], x.updatedAt), EffectiveLimit(limit))
  {
    var r, n := Rank(run.tables[0], x.updatedAt), EffectiveLimit(limit);
    var k := TurnOf(r, n);
    MultiplesOrder(j, k, n);
    ClaimedWhen(run, limit, x, j, j * n);
  }

  lemma MultiplesOrder(j: nat, k: nat, n: nat)
    requires j <= k
    ensures j * n <= k * n
    ensures j < k ==> j * n + n <= k * n
  {
    if j < k {
      MultiplesOrder(j, k - 1, n);
      assert k * n == (k - 1) * n + n;
    }
  }
}
