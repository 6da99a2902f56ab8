/** The in-memory suggestion queue and its replay. */
module MemoryQueue {
  import opened Text
  import opened Suggestions

  /** The first row with this ID is removed, or records the failed attempt. */
  function AfterMark(queue: seq<Queued>, id: string, success: bool, why: string, now: int): seq<Queued> {
    if queue == [] then []
    else if queue[0].id != id then [queue[0]] + AfterMark(queue[1..], id, success, why, now)
    else if success then queue[1..]
    else [Failed(queue[0], why, now)] + queue[1..]
  }

  ghost predicate Lacks(rows: seq<Queued>, id: string) {
    forall i :: 0 <= i < |rows| ==> rows[i].id != id
  }

  /** Rows in front with other IDs are passed over. */
  lemma {:induction false} AfterMarkSkips(left: seq<Queued>, rest: seq<Queued>, id: string,
                                          success: bool, why: string, now: int)
    requires Lacks(left, id)
    ensures AfterMark(left + rest, id, success, why, now) == left + AfterMark(rest, id, success, why, now)
  {
    if left == [] {
      assert left + rest == rest;
    } else {
      var x, l := left[0], left[1..];
      assert left == [x] + l;
      AfterMarkSkips(l, rest, id, success, why, now);
      ConsAppend(x, l, rest);
      AfterMarkCons(x, l + rest, id, success, why, now);
      ConsAppend(x, l, AfterMark(rest, id, success, why, now));
    }
  }

  lemma ConsAppend(x: Queued, a: seq<Queued>, b: seq<Queued>)
    ensures ([x] + a) + b == [x] + (a + b)
  {
  }

  lemma AfterMarkCons(x: Queued, queue: seq<Queued>, id: string, success: bool, why: string, now: int)
    requires x.id != id
    ensures AfterMark([x] + queue, id, success, why, now) == [x] + AfterMark(queue, id, success, why, now)
  {
    assert ([x] + queue)[1..] == queue;
  }

  function BatchSize(queue: seq<Queued>, limit: int): (n: nat)
    ensures n <= |queue|
  {
    if limit <= 0 || limit > |queue| then |queue| else limit
  }

  function AfterEvent(queue: seq<Queued>, ev: Event): seq<Queued> {
    match ev
    case Arrive(row) => queue + [row]
    case Mark(id, s, at) => AfterMark(queue, id, s.Accepted?, Remark(s), at)
  }

  /** Marking the first `k` of the claimed items, each with its outcome and time. */
  function AfterReplay(queue: seq<Queued>, items: seq<Queued>, outcomes: nat -> Submission, clock: nat -> int,
                       k: nat): seq<Queued>
    requires k <= |items|
  {
    AfterEvents(AfterEvent, queue, MarksOf(items, outcomes, clock, k))
  }

  lemma ReplayStep(queue: seq<Queued>, items: seq<Queued>, outcomes: nat -> Submission, clock: nat -> int, k: nat)
    requires k < |items|
    ensures AfterReplay(queue, items, outcomes, clock, k + 1) ==
            AfterMark(AfterReplay(queue, items, outcomes, clock, k), items[k].id,
                      outcomes(k).Accepted?, Remark(outcomes(k)), clock(k))
  {
    EventsSnoc(AfterEvent, queue, MarksOf(items, outcomes, clock, k), Mark(items[k].id, outcomes(k), clock(k)));
  }

  class Store {
    var queue: seq<Queued>

    constructor ()
      ensures queue == []
    {
      queue := [];
    }

    method Enqueue(item: Queued, id: string, now: int)
      modifies this
      ensures queue == old(queue) + [Stored(item, id, now)]
    {
      queue := queue + [item.(id := id, createdAt := now, updatedAt := now)];
    }

    method Claim(limit: int) returns (items: seq<Queued>)
      ensures items == queue[..BatchSize(queue, limit)]
    {
      var n := limit;
      if limit <= 0 || limit > |queue| { n := |queue|; }
      items := [];
      for i := 0 to n
        invariant items == queue[..i]
      {
        items := items + [queue[i]];
      }
    }

    method Mark(id: string, success: bool, why: string, now: int)
      modifies this
      ensures queue == AfterMark(old(queue), id, success, why, now)
    {
      var i := 0;
      while i < |queue| && queue[i].id != id
        invariant 0 <= i <= |queue|
        invariant forall j :: 0 <= j < i ==> queue[j].id != id
      {
        i := i + 1;
      }
      assert queue == queue[..i] + queue[i..];
      AfterMarkSkips(queue[..i], queue[i..], id, success, why, now);
      if i == |queue| { return; }
      assert queue[i..][1..] == queue[i + 1..];
      if success {
        queue := queue[..i] + queue[i + 1..];
      } else {
        var row := queue[i].(attempts := Increment(queue[i].attempts), lastError := why, updatedAt := now);
        assert queue[i := row] == queue[..i] + ([row] + queue[i + 1..]);
        queue := queue[i := row];
      }
    }
  }

  /** Submits the suggestion of every claimed item and records what became of it. */
  method ReplayQueuedSuggestions(store: Store, limit: int, outcomes: nat -> Submission, clock: nat -> int)
    returns (items: seq<Queued>, submitted: seq<Suggestion>)
    modifies store
    ensures items == old(store.queue)[..BatchSize(old(store.queue), limit)]
    ensures Rebuilt(items, submitted)
    ensures store.queue == AfterReplay(old(store.queue), items, outcomes, clock, |items|)
  {
    items := store.Claim(limit);
    submitted := [];
    for k := 0 to |items|
      invariant |submitted| == k && Rebuilt(items[..k], submitted)
      invariant store.queue == AfterReplay(old(store.queue), items, outcomes, clock, k)
    {
      submitted := RebuildNext(items, submitted);
      ReplayStep(old(store.queue), items, outcomes, clock, k);
      store.Mark(items[k].id, outcomes(k).Accepted?, Remark(outcomes(k)), clock(k));
    }
    assert items[..|items|] == items;
  }

  datatype Dispatch = Sent(accepted: bool) | QueuedForRetry | NotSent(why: string)

  /** Builds and submits; only an unreachable scheduler puts a row in the queue,
      and that row carries the suggestion. */
  method DispatchAction(store: Store, p: Policy, a: Action, lower: string -> string,
                        s: Submission, id: string, now: int) returns (r: Dispatch)
    modifies store
    ensures r.QueuedForRetry? <==> BuildSuggestion(p, a, lower).Built? && s.Unreachable?
    ensures r.QueuedForRetry? ==>
      && store.queue == old(store.queue) + [RowOf(p, a, lower, id, now)]
      && FromQueued(RowOf(p, a, lower, id, now)) == BuildSuggestion(p, a, lower).suggestion.(id := id)
    ensures !r.QueuedForRetry? ==> store.queue == old(store.queue)
    ensures r == Sent(true) <==> BuildSuggestion(p, a, lower).Built? && s.Accepted?
    ensures r == Sent(false) <==> BuildSuggestion(p, a, lower).Built? && s.Rejected?
    ensures r.NotSent? <==> BuildSuggestion(p, a, lower).Refused?
    ensures r.NotSent? ==> r.why == BuildSuggestion(p, a, lower).why
  {
    if TrimSpace(p.target) == "" { return NotSent("target_workload is empty"); }
    var b := BuildSuggestion(p, a, lower);
    if b.Refused? { return NotSent(b.why); }
    match s
    case Unreachable(_) =>
      store.Enqueue(ToQueued(p, b.suggestion), id, now);
      RowRoundTrip(p, a, lower, id, now, RowOf(p, a, lower, id, now));
      return QueuedForRetry;
    case Accepted => return Sent(true);
    case Rejected(_) => return Sent(false);
  }

  // ---------------------------------------------------------------- conservation

  ghost predicate UniqueIds(queue: seq<Queued>) {
    forall i, j :: 0 <= i < j < |queue| ==> queue[i].id != queue[j].id
  }

  /** Every item with the failure of its submission recorded. */
  function FailedRows(items: seq<Queued>, outcomes: nat -> Submission, clock: nat -> int): (r: seq<Queued>)
    ensures |r| == |items|
    ensures forall p :: 0 <= p < |items| ==> r[p] == Failed(items[p], Remark(outcomes(p)), clock(p))
  {
    seq(|items|, p requires 0 <= p < |items| => Failed(items[p], Remark(outcomes(p)), clock(p)))
  }

  /** Those of the first `k` rows whose submission was not accepted. */
  function Unaccepted(rows: seq<Queued>, outcomes: nat -> Submission, k: nat): seq<Queued>
    requires k <= |rows|
  {
    if k == 0 then []
    else Unaccepted(rows, outcomes, k - 1) + if outcomes(k - 1).Accepted? then [] else [rows[k - 1]]
  }

  /** The rows of a claimed prefix that stay: all but the accepted ones, each
      with one more attempt. */
  function Survivors(items: seq<Queued>, outcomes: nat -> Submission, clock: nat -> int, k: nat): seq<Queued>
    requires k <= |items|
  {
    Unaccepted(FailedRows(items, outcomes, clock), outcomes, k)
  }

  lemma {:induction false} UnacceptedLacks(rows: seq<Queued>, outcomes: nat -> Submission, k: nat, id: string)
    requires k <= |rows| && forall j :: 0 <= j < k ==> rows[j].id != id
    ensures Lacks(Unaccepted(rows, outcomes, k), id)
  {
    if k > 0 { UnacceptedLacks(rows, outcomes, k - 1, id); }
  }

  lemma SurvivorsDiffer(items: seq<Queued>, outcomes: nat -> Submission, clock: nat -> int, k: nat, id: string)
    requires k <= |items| && forall j :: 0 <= j < k ==> items[j].id != id
    ensures Lacks(Survivors(items, outcomes, clock, k), id)
  {
    UnacceptedLacks(FailedRows(items, outcomes, clock), outcomes, k, id);
  }

  lemma MarkInMiddle(left: seq<Queued>, q: Queued, right: seq<Queued>, success: bool, why: string, now: int)
    requires Lacks(left, q.id)
    ensures AfterMark(left + ([q] + right), q.id, success, why, now) ==
            left + (if success then [] else [Failed(q, why, now)]) + right
  {
    AfterMarkSkips(left, [q] + right, q.id, success, why, now);
    assert ([q] + right)[1..] == right;
    assert left + ([Failed(q, why, now)] + right) == left + [Failed(q, why, now)] + right;
    assert left + right == left + [] + right;
  }

  /** The queue before and after each mark of a replay. */
  ghost predicate IsTrace(trace: seq<seq<Queued>>, queue: seq<Queued>, n: nat, outcomes: nat -> Submission,
                          clock: nat -> int) {
    && n <= |queue| && |trace| == n + 1 && trace[0] == queue
    && forall k: nat :: k < n ==> MarksNext(trace, queue[k].id, outcomes, clock, k)
  }

  ghost predicate MarksNext(trace: seq<seq<Queued>>, id: string, outcomes: nat -> Submission, clock: nat -> int,
                            k: nat) {
    && k + 1 < |trace|
    && trace[k + 1] == AfterMark(trace[k], id, outcomes(k).Accepted?, Remark(outcomes(k)), clock(k))
  }

  lemma PrefixStep(items: seq<Queued>, outcomes: nat -> Submission, clock: nat -> int, k: nat,
                   q: Queued, right: seq<Queued>)
    requires k < |items| && items[k] == q && Lacks(Survivors(items, outcomes, clock, k), q.id)
    ensures AfterMark(Survivors(items, outcomes, clock, k) + ([q] + right), q.id,
                      outcomes(k).Accepted?, Remark(outcomes(k)), clock(k))
         == Survivors(items, outcomes, clock, k + 1) + right
  {
    MarkInMiddle(Survivors(items, outcomes, clock, k), q, right, outcomes(k).Accepted?, Remark(outcomes(k)), clock(k));
  }

  ghost predicate NoneBefore(queue: seq<Queued>, k: nat) {
    k < |queue| && forall j :: 0 <= j < k ==> queue[j].id != queue[k].id
  }

  lemma ItemsBefore(queue: seq<Queued>, items: seq<Queued>, n: nat, k: nat)
    requires k < n <= |queue| && items == queue[..n] && NoneBefore(queue, k)
    ensures items[k] == queue[k] && forall j :: 0 <= j < k ==> items[j].id != queue[k].id
  {
  }

  lemma TraceStep(trace: seq<seq<Queued>>, queue: seq<Queued>, items: seq<Queued>, n: nat,
                  outcomes: nat -> Submission, clock: nat -> int, k: nat)
    requires k < n <= |queue| && items == queue[..n] && k < |trace| && NoneBefore(queue, k)
    requires trace[k] == Survivors(items, outcomes, clock, k) + queue[k..]
    requires MarksNext(trace, queue[k].id, outcomes, clock, k)
    ensures trace[k + 1] == Survivors(items, outcomes, clock, k + 1) + queue[k + 1..]
  {
    var q, right := queue[k], queue[k + 1..];
    assert queue[k..] == [q] + right;
    ItemsBefore(queue, items, n, k);
    SurvivorsDiffer(items, outcomes, clock, k, q.id);
    PrefixStep(items, outcomes, clock, k, q, right);
  }

  lemma {:induction false} TracePrefix(trace: seq<seq<Queued>>, queue: seq<Queued>, n: nat,
                                       outcomes: nat -> Submission, clock: nat -> int, k: nat)
    requires (forall i: nat :: i < n ==> NoneBefore(queue, i)) && IsTrace(trace, queue, n, outcomes, clock) && k <= n
    ensures trace[k] == Survivors(queue[..n], outcomes, clock, k) + queue[k..]
  {
    if k == 0 {
      assert Survivors(queue[..n], outcomes, clock, 0) + queue[0..] == queue;
    } else {
      TracePrefix(trace, queue, n, outcomes, clock, k - 1);
      TraceStep(trace, queue, queue[..n], n, outcomes, clock, k - 1);
    }
  }

  lemma ReplayTrace(queue: seq<Queued>, n: nat, outcomes: nat -> Submission, clock: nat -> int)
    returns (trace: seq<seq<Queued>>)
    requires n <= |queue|
    ensures IsTrace(trace, queue, n, outcomes, clock) && trace[n] == AfterReplay(queue, queue[..n], outcomes, clock, n)
  {
    var items := queue[..n];
    trace := seq(n + 1, k requires 0 <= k <= n => AfterReplay(queue, items, outcomes, clock, k));
    forall k: nat | k < n ensures MarksNext(trace, queue[k].id, outcomes, clock, k) {
      ReplayStep(queue, items, outcomes, clock, k);
    }
  }

  /** One replay removes exactly the accepted rows of the claimed prefix, adds one
      attempt to each other row of it, keeps the order, and leaves the rest of
      the queue as it was. */
  lemma ReplayConserves(queue: seq<Queued>, limit: int, outcomes: nat -> Submission, clock: nat -> int)
    requires UniqueIds(queue)
    ensures
      var n := BatchSize(queue, limit);
      AfterReplay(queue, queue[..n], outcomes, clock, n) == Survivors(queue[..n], outcomes, clock, n) + queue[n..]
  {
    var n := BatchSize(queue, limit);
    var trace := ReplayTrace(queue, n, outcomes, clock);
    assert forall i: nat :: i < n ==> NoneBefore(queue, i);
    TracePrefix(trace, queue, n, outcomes, clock, n);
  }

  /** The submissions among the first `k` that were not accepted, in order. */
  function Refusals(outcomes: nat -> Submission, k: nat): seq<nat> {
    if k == 0 then [] else Refusals(outcomes, k - 1) + if outcomes(k - 1).Accepted? then [] else [k - 1]
  }

  lemma {:induction false} RefusalsSound(outcomes: nat -> Submission, k: nat, i: nat)
    requires i < |Refusals(outcomes, k)|
    ensures Refusals(outcomes, k)[i] < k && !outcomes(Refusals(outcomes, k)[i]).Accepted?
  {
    if i < |Refusals(outcomes, k - 1)| { RefusalsSound(outcomes, k - 1, i); }
  }

  lemma {:induction false} RefusalsComplete(outcomes: nat -> Submission, k: nat, p: nat)
    requires p < k && !outcomes(p).Accepted?
    ensures p in Refusals(outcomes, k)
  {
    if p < k - 1 { RefusalsComplete(outcomes, k - 1, p); }
  }

  lemma {:induction false} RefusalsIncrease(outcomes: nat -> Submission, k: nat, i: nat, j: nat)
    requires i < j < |Refusals(outcomes, k)|
    ensures Refusals(outcomes, k)[i] < Refusals(outcomes, k)[j]
  {
    if j < |Refusals(outcomes, k - 1)| {
      RefusalsIncrease(outcomes, k - 1, i, j);
    } else {
      RefusalsSound(outcomes, k - 1, i);
    }
  }

  lemma {:induction false} UnacceptedAt(rows: seq<Queued>, outcomes: nat -> Submission, k: nat, i: nat)
    requires k <= |rows|
    ensures |Unaccepted(rows, outcomes, k)| == |Refusals(outcomes, k)|
    ensures i < |Refusals(outcomes, k)| ==>
      Refusals(outcomes, k)[i] < k && Unaccepted(rows, outcomes, k)[i] == rows[Refusals(outcomes, k)[i]]
  {
    if k > 0 { UnacceptedAt(rows, outcomes, k - 1, i); }
  }

  /** Row `i` of what is left of the claimed prefix is the item of the `i`-th refused
      submission with that failure recorded, and there are no others. */
  lemma SurvivorsExact(items: seq<Queued>, outcomes: nat -> Submission, clock: nat -> int, k: nat, i: nat)
    requires k <= |items|
    ensures |Survivors(items, outcomes, clock, k)| == |Refusals(outcomes, k)|
    ensures i < |Refusals(outcomes, k)| ==>
      var p := Refusals(outcomes, k)[i];
      p < k && Survivors(items, outcomes, clock, k)[i] == Failed(items[p], Remark(outcomes(p)), clock(p))
  {
    UnacceptedAt(FailedRows(items, outcomes, clock), outcomes, k, i);
  }

  // ------------------------------------------------------------------ round trip

  lemma {:induction false} MarkOrigin(queue: seq<Queued>, id: string, success: bool, why: string, now: int, q: Queued)
    requires q in AfterMark(queue, id, success, why, now)
    ensures exists y :: y in queue && Retried(q, y)
  {
    if queue[0].id != id {
      if q == queue[0] {
        assert Retried(q, queue[0]);
      } else {
        MarkOrigin(queue[1..], id, success, why, now, q);
      }
    } else if success || q != Failed(queue[0], why, now) {
      assert q in queue[1..] && Retried(q, q);
    } else {
      assert Retried(q, queue[0]);
    }
  }

  lemma EventOrigin(queue: seq<Queued>, ev: Event, q: Queued)
    requires q in AfterEvent(queue, ev)
    ensures HasOrigin(queue, ev, q)
  {
    match ev
    case Arrive(row) =>
      if q in queue { assert Retried(q, q); }
    case Mark(id, s, at) => MarkOrigin(queue, id, s.Accepted?, Remark(s), at, q);
  }

  /** After any enqueues, marks and replays from an empty queue, what the next
      replay submits under an ID is the suggestion that was built for it. */
  lemma SubmittedIsBuilt(events: seq<Event>, limit: int, p: Policy, a: Action, lower: string -> string,
                         id: string, now: int, q: Queued)
    requires NewIds(events) && BuildSuggestion(p, a, lower).Built? && Arrive(RowOf(p, a, lower, id, now)) in events
    requires
      var queue := AfterEvents(AfterEvent, [], events);
      q in queue[..BatchSize(queue, limit)] && q.id == id
    ensures FromQueued(q) == BuildSuggestion(p, a, lower).suggestion.(id := id)
  {
    forall rs, ev, r | r in AfterEvent(rs, ev) ensures HasOrigin(rs, ev, r) { EventOrigin(rs, ev, r); }
    EventsOrigin(AfterEvent, [], events, q);
    ArrivedRoundTrip(events, p, a, lower, id, now, q);
  }

  // ----------------------------------------------------------------------- turns

  /** A replay round: the claimed rows are marked in order, with new rows, under
      new IDs, arriving at any point. */
  ghost predicate RoundOk(queue: seq<Queued>, batch: seq<Queued>, events: seq<Event>)
    decreases |events|
  {
    if events == [] then batch == []
    else match events[0]
      case Arrive(row) =>
        (forall q :: q in queue ==> q.id != row.id) && RoundOk(queue + [row], batch, events[1..])
      case Mark(id, s, at) =>
        batch != [] && batch[0].id == id && RoundOk(AfterEvent(queue, events[0]), batch[1..], events[1..])
  }

  /** How many of the marked rows were accepted. */
  function Accepts(events: seq<Event>): nat {
    if events == [] then 0
    else (if events[0].Mark? && events[0].s.Accepted? then 1 else 0) + Accepts(events[1..])
  }

  /** A row with this ID stands before position `r`. */
  ghost predicate Ahead(queue: seq<Queued>, r: nat, id: string) {
    exists i :: 0 <= i < r && i < |queue| && queue[i].id == id
  }

  /** Marking a row ahead of position `r` moves the row there up by one if it was
      accepted, and not at all if it failed. */
  lemma MarkMovesUp(queue: seq<Queued>, r: nat, id: string, s: Submission, at: int)
    requires UniqueIds(queue) && r < |queue| && Ahead(queue, r, id)
    ensures
      var after := AfterEvent(queue, Mark(id, s, at));
      var r' := if s.Accepted? then r - 1 else r;
      && 0 <= r' < |after| && after[r'] == queue[r] && UniqueIds(after)
      && forall o :: o != id && Ahead(queue, r, o) ==> Ahead(after, r', o)
  {
    var i :| 0 <= i < r && queue[i].id == id;
    MarkShifts(queue, i, s.Accepted?, Remark(s), at);
    ShiftMovesUp(queue, AfterEvent(queue, Mark(id, s, at)), i, s.Accepted?, r);
  }

  /** `after` is `queue` without the row at `i`, or with another row of its ID there. */
  ghost predicate Shifted(queue: seq<Queued>, after: seq<Queued>, i: nat, gone: bool) {
    && i < |queue| && |after| == |queue| - (if gone then 1 else 0)
    && (forall k :: 0 <= k < i ==> after[k] == queue[k])
    && (!gone ==> after[i].id == queue[i].id)
    && (forall k :: i < k < |queue| ==> after[if gone then k - 1 else k] == queue[k])
  }

  lemma {:induction false} MarkShifts(queue: seq<Queued>, i: nat, success: bool, why: string, now: int)
    requires UniqueIds(queue) && i < |queue|
    ensures Shifted(queue, AfterMark(queue, queue[i].id, success, why, now), i, success)
  {
    var rest, id := queue[1..], queue[i].id;
    assert queue == [queue[0]] + rest;
    if i == 0 {
      assert AfterMark(queue, id, success, why, now) == if success then rest else [Failed(queue[0], why, now)] + rest;
    } else {
      MarkShifts(rest, i - 1, success, why, now);
      ShiftCons(queue[0], rest, AfterMark(rest, id, success, why, now), i - 1, success);
    }
  }

  lemma ShiftCons(x: Queued, queue: seq<Queued>, after: seq<Queued>, i: nat, gone: bool)
    requires Shifted(queue, after, i, gone)
    ensures Shifted([x] + queue, [x] + after, i + 1, gone)
  {
    var queue', after' := [x] + queue, [x] + after;
    forall k | i + 1 < k < |queue'| ensures after'[if gone then k - 1 else k] == queue'[k] {
      assert queue'[k] == queue[k - 1];
    }
  }

  lemma ShiftMovesUp(queue: seq<Queued>, after: seq<Queued>, i: nat, gone: bool, r: nat)
    requires UniqueIds(queue) && Shifted(queue, after, i, gone) && i < r < |queue|
    ensures
      var r' := if gone then r - 1 else r;
      && after[r'] == queue[r] && UniqueIds(after)
      && forall o :: o != queue[i].id && Ahead(queue, r, o) ==> Ahead(after, r', o)
  {
    var r' := if gone then r - 1 else r;
    StillUnique(queue, after, i, gone);
    forall o | o != queue[i].id && Ahead(queue, r, o) ensures Ahead(after, r', o) {
      var k :| 0 <= k < r && k < |queue| && queue[k].id == o;
      var k' := if gone && k > i then k - 1 else k;
      assert after[k'] == queue[k];
    }
  }

  lemma StillUnique(queue: seq<Queued>, after: seq<Queued>, i: nat, gone: bool)
    requires UniqueIds(queue) && Shifted(queue, after, i, gone)
    ensures UniqueIds(after)
  {
    forall a, b | 0 <= a < b < |after| ensures after[a].id != after[b].id {
      var a', b' := if gone && a >= i then a + 1 else a, if gone && b >= i then b + 1 else b;
      assert after[a].id == queue[a'].id && after[b].id == queue[b'].id;
    }
  }

  ghost predicate AllAhead(queue: seq<Queued>, r: nat, batch: seq<Queued>) {
    forall i :: 0 <= i < |batch| ==> Ahead(queue, r, batch[i].id)
  }

  /** Row `x` stands at position `r` of a queue without repeated IDs. */
  ghost predicate StandsAt(queue: seq<Queued>, r: int, x: Queued) {
    UniqueIds(queue) && 0 <= r < |queue| && queue[r] == x
  }

  lemma ArriveKeepsPlace(queue: seq<Queued>, batch: seq<Queued>, r: nat, row: Queued, x: Queued)
    requires StandsAt(queue, r, x) && AllAhead(queue, r, batch) && forall q :: q in queue ==> q.id != row.id
    ensures StandsAt(queue + [row], r, x) && AllAhead(queue + [row], r, batch)
  {
    var after := queue + [row];
    forall i, j | 0 <= i < j < |after| ensures after[i].id != after[j].id { assert i < |queue| ==> queue[i] in queue; }
    forall k | 0 <= k < |batch| ensures Ahead(after, r, batch[k].id) {
      assert Ahead(queue, r, batch[k].id);
      var i :| 0 <= i < r && i < |queue| && queue[i].id == batch[k].id;
      assert after[i] == queue[i];
    }
  }

  lemma BatchMovesUp(queue: seq<Queued>, batch: seq<Queued>, r: nat, s: Submission, at: int, x: Queued)
    requires StandsAt(queue, r, x) && batch != [] && UniqueIds(batch) && AllAhead(queue, r, batch)
    ensures
      var after := AfterEvent(queue, Mark(batch[0].id, s, at));
      var r' := if s.Accepted? then r - 1 else r;
      r' >= 0 && StandsAt(after, r', x) && UniqueIds(batch[1..]) && AllAhead(after, r', batch[1..])
  {
    assert Ahead(queue, r, batch[0].id);
    MarkMovesUp(queue, r, batch[0].id, s, at);
    forall i | 0 <= i < |batch[1..]|
      ensures batch[1..][i].id != batch[0].id && Ahead(queue, r, batch[1..][i].id)
    {
      assert batch[1..][i] == batch[i + 1] && Ahead(queue, r, batch[i + 1].id);
    }
  }

  /** Row `x` stands at position `r`, behind the whole batch. */
  ghost predicate Behind(queue: seq<Queued>, batch: seq<Queued>, r: int, x: Queued) {
    r >= 0 && StandsAt(queue, r, x) && UniqueIds(batch) && AllAhead(queue, r, batch)
  }

  lemma EventStep(queue: seq<Queued>, batch: seq<Queued>, events: seq<Event>, r: nat, x: Queued)
    returns (next: seq<Queued>, batch': seq<Queued>, r': nat)
    requires events != [] && RoundOk(queue, batch, events) && Behind(queue, batch, r, x)
    ensures RoundOk(next, batch', events[1..]) && Behind(next, batch', r', x)
    ensures AfterEvents(AfterEvent, queue, events) == AfterEvents(AfterEvent, next, events[1..])
    ensures r - Accepts(events) == r' - Accepts(events[1..])
  {
    next, batch', r' := AfterEvent(queue, events[0]), batch, r;
    match events[0]
    case Arrive(row) => ArriveKeepsPlace(queue, batch, r, row, x);
    case Mark(id, s, at) =>
      BatchMovesUp(queue, batch, r, s, at, x);
      batch', r' := batch[1..], if s.Accepted? then r - 1 else r;
  }

  /** Over a round, a row behind the whole batch moves up by exactly the number of
      accepted rows, whatever arrives meanwhile. */
  lemma {:induction false} RoundMovesUp(queue: seq<Queued>, batch: seq<Queued>, events: seq<Event>, r: nat, x: Queued)
    requires RoundOk(queue, batch, events) && Behind(queue, batch, r, x)
    ensures StandsAt(AfterEvents(AfterEvent, queue, events), r - Accepts(events), x)
    decreases |events|
  {
    if events != [] {
      var next, batch', r' := EventStep(queue, batch, events, r, x);
      RoundMovesUp(next, batch', events[1..], r', x);
    }
  }

  /** A run of replay rounds and the queues between them. */
  datatype Run = Run(queues: seq<seq<Queued>>, rounds: seq<seq<Event>>)

  function Batch(queue: seq<Queued>, limit: int): seq<Queued> {
    queue[..BatchSize(queue, limit)]
  }

  ghost predicate RoundAt(run: Run, limit: int, j: nat)
    requires j < |run.rounds| && |run.queues| == |run.rounds| + 1
  {
    && RoundOk(run.queues[j], Batch(run.queues[j], limit), run.rounds[j])
    && run.queues[j + 1] == AfterEvents(AfterEvent, run.queues[j], run.rounds[j])
  }

  ghost predicate RunOk(run: Run, limit: int) {
    && |run.queues| == |run.rounds| + 1 && UniqueIds(run.queues[0])
    && forall j: nat :: j < |run.rounds| ==> RoundAt(run, limit, j)
  }

  /** How many rows were accepted in the first `j` rounds. */
  function AcceptedBefore(run: Run, j: nat): nat
    requires j <= |run.rounds|
  {
    if j == 0 then 0 else AcceptedBefore(run, j - 1) + Accepts(run.rounds[j - 1])
  }

  /** Few enough rows are left before the row that started at position `r`. */
  predicate InReach(run: Run, limit: int, r: nat, j: nat)
    requires j <= |run.rounds|
  {
    limit <= 0 || r - AcceptedBefore(run, j) < limit
  }

  /** A row that was never within reach is still there as it was, moved up by the
      rows accepted so far. */
  lemma {:induction false} PlaceAfter(run: Run, limit: int, r: nat, j: nat)
    requires RunOk(run, limit) && r < |run.queues[0]| && j <= |run.rounds|
    requires forall i: nat :: i < j ==> !InReach(run, limit, r, i)
    ensures StandsAt(run.queues[j], r - AcceptedBefore(run, j), run.queues[0][r])
  {
    if j > 0 {
      PlaceAfter(run, limit, r, j - 1);
      PlaceStep(run, limit, r, j - 1, run.queues[0][r]);
    }
  }

  lemma PlaceStep(run: Run, limit: int, r: nat, j: nat, x: Queued)
    requires RunOk(run, limit) && j < |run.rounds| && !InReach(run, limit, r, j)
    requires StandsAt(run.queues[j], r - AcceptedBefore(run, j), x)
    ensures StandsAt(run.queues[j + 1], r - AcceptedBefore(run, j + 1), x)
  {
    assert RoundAt(run, limit, j);
    OneRound(run.queues[j], limit, run.rounds[j], r - AcceptedBefore(run, j), x);
  }

  lemma OneRound(queue: seq<Queued>, limit: int, events: seq<Event>, r: nat, x: Queued)
    requires StandsAt(queue, r, x) && RoundOk(queue, Batch(queue, limit), events) && 0 < limit <= r
    ensures StandsAt(AfterEvents(AfterEvent, queue, events), r - Accepts(events), x)
  {
    var batch := Batch(queue, limit);
    forall i | 0 <= i < |batch| ensures Ahead(queue, r, batch[i].id) { assert queue[i].id == batch[i].id; }
    RoundMovesUp(queue, batch, events, r, x);
  }

  lemma ClaimedInReach(run: Run, limit: int, r: nat, j: nat)
    requires RunOk(run, limit) && r < |run.queues[0]| && j <= |run.rounds| && InReach(run, limit, r, j)
    requires forall i: nat :: i < j ==> !InReach(run, limit, r, i)
    ensures Claims(run.queues[j], limit, run.queues[0][r].id)
  {
    PlaceAfter(run, limit, r, j);
    var queue, at := run.queues[j], r - AcceptedBefore(run, j);
    assert at < BatchSize(queue, limit) && queue[at].id == run.queues[0][r].id;
  }

  lemma {:induction false} ReachGrows(run: Run, limit: int, r: nat, i: nat, j: nat)
    requires i <= j <= |run.rounds| && InReach(run, limit, r, i)
    ensures InReach(run, limit, r, j)
  {
    if i < j { ReachGrows(run, limit, r, i, j - 1); }
  }

  /** One of the events accepts the row with this ID. */
  ghost predicate AcceptsId(events: seq<Event>, id: string) {
    exists k :: 0 <= k < |events| && events[k].Mark? && events[k].id == id && events[k].s.Accepted?
  }

  /** The row with this ID stands at position `p` or before. */
  ghost predicate StandsBy(queue: seq<Queued>, p: nat, id: string) {
    UniqueIds(queue) && Ahead(queue, p + 1, id)
  }

  /** A mark never moves another row back, and a failure keeps its row in place. */
  lemma MarkKeepsBy(queue: seq<Queued>, p: nat, id: string, o: string, success: bool, why: string, now: int)
    requires StandsBy(queue, p, id) && (o == id ==> !success)
    ensures StandsBy(AfterMark(queue, o, success, why, now), p, id)
  {
    var k :| 0 <= k <= p && k < |queue| && queue[k].id == id;
    var after := AfterMark(queue, o, success, why, now);
    if Lacks(queue, o) {
      AfterMarkSkips(queue, [], o, success, why, now);
      assert queue + [] == queue;
    } else {
      var i :| 0 <= i < |queue| && queue[i].id == o;
      MarkShifts(queue, i, success, why, now);
      StillUnique(queue, after, i, success);
      var k' := if success && k > i then k - 1 else k;
      assert after[k'].id == id;
    }
  }

  lemma ArriveKeepsBy(queue: seq<Queued>, p: nat, id: string, row: Queued)
    requires StandsBy(queue, p, id) && forall q :: q in queue ==> q.id != row.id
    ensures StandsBy(queue + [row], p, id)
  {
    var k :| 0 <= k <= p && k < |queue| && queue[k].id == id;
    ArriveKeepsPlace(queue, [], k, row, queue[k]);
  }

  lemma {:induction false} RoundKeepsBy(queue: seq<Queued>, batch: seq<Queued>, events: seq<Event>, p: nat, id: string)
    requires StandsBy(queue, p, id) && RoundOk(queue, batch, events) && !AcceptsId(events, id)
    ensures StandsBy(AfterEvents(AfterEvent, queue, events), p, id)
    decreases |events|
  {
    if events != [] {
      assert !AcceptsId(events[1..], id) by {
        assert forall k :: 0 <= k < |events[1..]| ==> events[1..][k] == events[k + 1];
      }
      match events[0]
      case Arrive(row) =>
        ArriveKeepsBy(queue, p, id, row);
        RoundKeepsBy(queue + [row], batch, events[1..], p, id);
      case Mark(o, s, at) =>
        MarkKeepsBy(queue, p, id, o, s.Accepted?, Remark(s), at);
        RoundKeepsBy(AfterEvent(queue, events[0]), batch[1..], events[1..], p, id);
    }
  }

  ghost predicate Claims(queue: seq<Queued>, limit: int, id: string) {
    UniqueIds(queue) && Ahead(queue, BatchSize(queue, limit), id)
  }

  /** A claimed row is claimed again in the next round unless it is accepted. */
  lemma ClaimedAgain(queue: seq<Queued>, limit: int, events: seq<Event>, id: string)
    requires Claims(queue, limit, id) && RoundOk(queue, Batch(queue, limit), events) && !AcceptsId(events, id)
    ensures Claims(AfterEvents(AfterEvent, queue, events), limit, id)
  {
    var after := AfterEvents(AfterEvent, queue, events);
    var p := BatchSize(queue, limit) - 1;
    RoundKeepsBy(queue, Batch(queue, limit), events, p, id);
    var k :| 0 <= k <= p && k < |after| && after[k].id == id;
    assert k < BatchSize(after, limit);
  }

  lemma {:induction false} ClaimedOnward(run: Run, limit: int, i: nat, j: nat, id: string)
    requires RunOk(run, limit) && i <= j <= |run.rounds| && Claims(run.queues[i], limit, id)
    requires forall k: nat :: i <= k < j ==> !AcceptsId(run.rounds[k], id)
    ensures Claims(run.queues[j], limit, id)
  {
    if i < j {
      ClaimedOnward(run, limit, i, j - 1, id);
      assert RoundAt(run, limit, j - 1);
      ClaimedAgain(run.queues[j - 1], limit, run.rounds[j - 1], id);
    }
  }

  lemma {:induction false} FirstInReach(run: Run, limit: int, r: nat, j: nat) returns (i: nat)
    requires j <= |run.rounds| && InReach(run, limit, r, j)
    ensures i <= j && InReach(run, limit, r, i) && forall k: nat :: k < i ==> !InReach(run, limit, r, k)
  {
    i := j;
    if j > 0 && InReach(run, limit, r, j - 1) {
      i := FirstInReach(run, limit, r, j - 1);
    } else {
      forall k: nat | k < j ensures !InReach(run, limit, r, k) {
        if InReach(run, limit, r, k) { ReachGrows(run, limit, r, k, j - 1); }
      }
    }
  }

  /** When a row is submitted: until it is accepted, the row that started at
      position `r` is claimed in round `j` if and only if `r` less the rows
      accepted before that round is below the limit.  A non-positive limit claims
      everything. */
  lemma TurnIff(run: Run, limit: int, r: nat, j: nat)
    requires RunOk(run, limit) && r < |run.queues[0]| && j <= |run.rounds|
    requires forall k: nat :: k < j ==> !AcceptsId(run.rounds[k], run.queues[0][r].id)
    ensures Claims(run.queues[j], limit, run.queues[0][r].id) <==> InReach(run, limit, r, j)
  {
    var id := run.queues[0][r].id;
    if InReach(run, limit, r, j) {
      var i := FirstInReach(run, limit, r, j);
      ClaimedInReach(run, limit, r, i);
      ClaimedOnward(run, limit, i, j, id);
    } else {
      forall k: nat | k < j ensures !InReach(run, limit, r, k) {
        if InReach(run, limit, r, k) { ReachGrows(run, limit, r, k, j); }
      }
      PlaceAfter(run, limit, r, j);
      BeyondBatch(run.queues[j], limit, r - AcceptedBefore(run, j), run.queues[0][r]);
    }
  }

  lemma BeyondBatch(queue: seq<Queued>, limit: int, at: nat, x: Queued)
    requires StandsAt(queue, at, x) && 0 < limit <= at
    ensures !Claims(queue, limit, x.id)
  {
    forall i | 0 <= i < BatchSize(queue, limit) ensures queue[i].id != x.id { assert i < at; }
  }

  // ------------------------------------------------------------------ starvation

  function Ids(queue: seq<Queued>): (r: seq<string>)
    ensures |r| == |queue|
  {
    seq(|queue|, i requires 0 <= i < |queue| => queue[i].id)
  }

  function Replays(queue: seq<Queued>, limit: int, rounds: seq<(nat -> Submission, nat -> int)>): seq<Queued>
    decreases |rounds|
  {
    if rounds == [] then queue
    else
      var n := BatchSize(queue, limit);
      Replays(AfterReplay(queue, queue[..n], rounds[0].0, rounds[0].1, n), limit, rounds[1..])
  }

  lemma FailureKeepsIds(queue: seq<Queued>, id: string, why: string, now: int)
    ensures Ids(AfterMark(queue, id, false, why, now)) == Ids(queue)
  {
    if queue != [] {
      FailureKeepsIds(queue[1..], id, why, now);
      var r, rest := AfterMark(queue, id, false, why, now), AfterMark(queue[1..], id, false, why, now);
      assert |rest| == |Ids(rest)| == |queue| - 1;
      forall i | 0 <= i < |queue| ensures i < |r| && r[i].id == queue[i].id {
        if 0 < i < |r| && queue[0].id != id { assert Ids(rest)[i - 1] == Ids(queue[1..])[i - 1]; }
      }
    }
  }

  lemma {:induction false} AllFailedKeepsIds(queue: seq<Queued>, n: nat, outcomes: nat -> Submission, clock: nat -> int,
                                             k: nat)
    requires k <= n <= |queue| && forall i: nat :: !outcomes(i).Accepted?
    ensures Ids(AfterReplay(queue, queue[..n], outcomes, clock, k)) == Ids(queue)
  {
    if k > 0 {
      AllFailedKeepsIds(queue, n, outcomes, clock, k - 1);
      var items := queue[..n];
      ReplayStep(queue, items, outcomes, clock, k - 1);
      FailureKeepsIds(AfterReplay(queue, items, outcomes, clock, k - 1), items[k - 1].id,
                      Remark(outcomes(k - 1)), clock(k - 1));
    }
  }

  /** This queue is not fair: while the rows in front keep failing, no number of
      replays ever gets past them, because a failure keeps its place. */
  lemma {:induction false} FailuresBlockTheQueue(queue: seq<Queued>, limit: int,
                                                 rounds: seq<(nat -> Submission, nat -> int)>)
    requires forall r, i: nat :: 0 <= r < |rounds| ==> !rounds[r].0(i).Accepted?
    ensures
      var q := Replays(queue, limit, rounds);
      Ids(q) == Ids(queue) && Ids(q[..BatchSize(q, limit)]) == Ids(queue[..BatchSize(queue, limit)])
    decreases |rounds|
  {
    if rounds != [] {
      var n := BatchSize(queue, limit);
      var next := AfterReplay(queue, queue[..n], rounds[0].0, rounds[0].1, n);
      assert forall i: nat :: !rounds[0].0(i).Accepted?;
      AllFailedKeepsIds(queue, n, rounds[0].0, rounds[0].1, n);
      assert |next| == |Ids(next)| == |queue|;
      assert forall r, i: nat :: 0 <= r < |rounds[1..]| ==> rounds[1..][r].0(i) == rounds[r + 1].0(i);
      FailuresBlockTheQueue(next, limit, rounds[1..]);
      SameIdPrefix(next, queue, n);
    }
  }

  lemma SameIdPrefix(a: seq<Queued>, b: seq<Queued>, n: nat)
    requires Ids(a) == Ids(b) && n <= |a|
    ensures |a| == |b| && Ids(a[..n]) == Ids(b[..n])
  {
    assert |Ids(a)| == |a| && |Ids(b)| == |b|;
    forall i | 0 <= i < n ensures Ids(a[..n])[i] == Ids(b[..n])[i] {
      assert Ids(a)[i] == Ids(b)[i];
    }
  }
}
