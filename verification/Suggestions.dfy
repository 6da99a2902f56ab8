/** Building a scheduler suggestion from a policy's action, and the detour
    through a queue row when the scheduler cannot be reached. */
module Suggestions {
  import opened Text

  type Int32 = x: int | -0x8000_0000 <= x < 0x8000_0000

  /** Go's `int32` increment. */
  function Increment(x: Int32): Int32 {
    if x == 0x7FFF_FFFF then -0x8000_0000 else x + 1
  }

  datatype ActionType = Unspecified | SetDesiredState | RetryWorkload | DeleteWorkload | ScaleReplicas

  /** The protobuf enum names. */
  function Name(t: ActionType): string {
    match t
    case Unspecified => "AUTOMATION_ACTION_TYPE_UNSPECIFIED"
    case SetDesiredState => "AUTOMATION_ACTION_SET_DESIRED_STATE"
    case RetryWorkload => "AUTOMATION_ACTION_RETRY_WORKLOAD"
    case DeleteWorkload => "AUTOMATION_ACTION_DELETE_WORKLOAD"
    case ScaleReplicas => "AUTOMATION_ACTION_SCALE_REPLICAS"
  }

  function ActionTypeFromString(v: string): ActionType {
    var s := TrimSpace(v);
    if s == Name(SetDesiredState) then SetDesiredState
    else if s == Name(RetryWorkload) then RetryWorkload
    else if s == Name(DeleteWorkload) then DeleteWorkload
    else if s == Name(ScaleReplicas) then ScaleReplicas
    else Unspecified
  }

  datatype Policy = Policy(id: string, name: string, target: string)

  datatype Action = Action(kind: string, desiredState: string, desiredReplicas: Int32, replicaDelta: Int32)

  datatype Suggestion = Suggestion(
    id: string, policyId: string, policyName: string, target: string, actionType: ActionType,
    desiredState: string, desiredReplicas: Int32, replicaDelta: Int32, reason: string)

  datatype Queued = Queued(
    id: string, policyId: string, policyName: string, target: string, actionType: string,
    desiredState: string, desiredReplicas: Int32, replicaDelta: Int32, reason: string,
    attempts: Int32, lastError: string, createdAt: int, updatedAt: int)

  datatype Build = Built(suggestion: Suggestion) | Refused(why: string)

  /** The action a policy's JSON names; `lower` is the library's lower-casing. */
  function KindOf(a: Action, lower: string -> string): ActionType {
    var kind := lower(TrimSpace(a.kind));
    if kind == "set_desired_state" then SetDesiredState
    else if kind == "retry_workload" then RetryWorkload
    else if kind == "delete_workload" then DeleteWorkload
    else if kind == "scale_replicas" then ScaleReplicas
    else Unspecified
  }

  function BuildSuggestion(p: Policy, a: Action, lower: string -> string): (r: Build)
    ensures r.Built? <==>
      && TrimSpace(p.target) != "" && KindOf(a, lower) != Unspecified
      && (KindOf(a, lower) == SetDesiredState ==> TrimSpace(a.desiredState) != "")
    ensures r.Built? ==>
      var s := r.suggestion;
      && s.id == "" && s.policyId == p.id && s.policyName == p.name && s.target == TrimSpace(p.target)
      && s.actionType == KindOf(a, lower)
      && s.desiredState == (if s.actionType == SetDesiredState then TrimSpace(a.desiredState) else "")
      && s.desiredReplicas == (if s.actionType == ScaleReplicas then a.desiredReplicas else 0)
      && s.replicaDelta == (if s.actionType == ScaleReplicas then a.replicaDelta else 0)
      && s.reason == "policy=" + p.name + " condition/action matched"
  {
    var target := TrimSpace(p.target);
    var base := Suggestion("", p.id, p.name, target, Unspecified, "", 0, 0,
                           "policy=" + p.name + " condition/action matched");
    if target == "" then Refused("target_workload is empty")
    else
      var kind := lower(TrimSpace(a.kind));
      if kind == "set_desired_state" then
        var desired := TrimSpace(a.desiredState);
        if desired == "" then Refused("desired_state required")
        else Built(base.(actionType := SetDesiredState, desiredState := desired))
      else if kind == "retry_workload" then Built(base.(actionType := RetryWorkload))
      else if kind == "delete_workload" then Built(base.(actionType := DeleteWorkload))
      else if kind == "scale_replicas" then
        Built(base.(actionType := ScaleReplicas, desiredReplicas := a.desiredReplicas, replicaDelta := a.replicaDelta))
      else Refused("unsupported action type")
  }

  /** The row an undeliverable suggestion becomes. */
  function ToQueued(p: Policy, s: Suggestion): Queued {
    Queued("", p.id, p.name, TrimSpace(p.target), Name(s.actionType),
           s.desiredState, s.desiredReplicas, s.replicaDelta, s.reason, 0, "", 0, 0)
  }

  /** What either store keeps of it: a new ID and the time are added. */
  function Stored(item: Queued, id: string, now: int): Queued {
    item.(id := id, createdAt := now, updatedAt := now)
  }

  function FromQueued(q: Queued): Suggestion {
    Suggestion(q.id, q.policyId, q.policyName, q.target, ActionTypeFromString(q.actionType),
               q.desiredState, q.desiredReplicas, q.replicaDelta, q.reason)
  }

  /** What submitting a suggestion to the scheduler comes to. */
  datatype Submission = Unreachable(error: string) | Accepted | Rejected(reason: string)

  function Remark(s: Submission): string {
    match s
    case Unreachable(error) => error
    case Accepted => "accepted"
    case Rejected(reason) => "rejected: " + reason
  }

  function Failed(q: Queued, why: string, now: int): Queued {
    q.(attempts := Increment(q.attempts), lastError := why, updatedAt := now)
  }

  lemma NamesAreTrimmed(t: ActionType)
    ensures TrimSpace(Name(t)) == Name(t)
  {
    assert Name(t)[0] == 'A';
    assert Name(t)[|Name(t)| - 1] == match t case SetDesiredState => 'E' case ScaleReplicas => 'S' case _ => 'D';
    TrimNothing(Name(t));
  }

  lemma NamesDiffer(t: ActionType, u: ActionType)
    requires t != u
    ensures Name(t) != Name(u)
  {
    assert |Name(Unspecified)| == 34 && |Name(SetDesiredState)| == 35 && |Name(DeleteWorkload)| == 33;
    assert |Name(RetryWorkload)| == 32 && |Name(ScaleReplicas)| == 32;
    assert Name(RetryWorkload)[18] == 'R' && Name(ScaleReplicas)[18] == 'S';
  }

  lemma ActionTypeRoundTrip(t: ActionType)
    ensures ActionTypeFromString(Name(t)) == t
  {
    NamesAreTrimmed(t);
    forall u | u != t ensures Name(t) != Name(u) { NamesDiffer(t, u); }
  }

  // ------------------------------------------------------------- in plain words

  /** The four action words, and nothing else. */
  lemma ActionWords(a: Action, lower: string -> string)
    ensures
      var kind, word := KindOf(a, lower), lower(TrimSpace(a.kind));
      && (kind == SetDesiredState <==> word == "set_desired_state")
      && (kind == RetryWorkload <==> word == "retry_workload")
      && (kind == DeleteWorkload <==> word == "delete_workload")
      && (kind == ScaleReplicas <==> word == "scale_replicas")
  {
    assert |"set_desired_state"| == 17 && |"delete_workload"| == 15 && |"retry_workload"| == |"scale_replicas"| == 14;
    assert "retry_workload"[0] == 'r' && "scale_replicas"[0] == 's';
  }

  /** Why nothing is built. */
  lemma RefusalReasons(p: Policy, a: Action, lower: string -> string)
    requires BuildSuggestion(p, a, lower).Refused?
    ensures
      var why := BuildSuggestion(p, a, lower).why;
      && (TrimSpace(p.target) == "" ==> why == "target_workload is empty")
      && (TrimSpace(p.target) != "" && KindOf(a, lower) == SetDesiredState ==> why == "desired_state required")
      && (TrimSpace(p.target) != "" && KindOf(a, lower) == Unspecified ==> why == "unsupported action type")
  {
  }

  /** A failed attempt: one more attempt, the error or the scheduler's reason, the
      time; the rest of the row stays. */
  lemma FailedExact(q: Queued, s: Submission, now: int)
    requires !s.Accepted?
    ensures
      var r := Failed(q, Remark(s), now);
      && r == q.(attempts := r.attempts, lastError := r.lastError, updatedAt := now)
      && (q.attempts < 0x7FFF_FFFF ==> r.attempts == q.attempts + 1)
      && (q.attempts == 0x7FFF_FFFF ==> r.attempts == -0x8000_0000)
      && r.lastError == match s case Unreachable(error) => error case Rejected(reason) => "rejected: " + reason
                              case Accepted => ""
  {
  }

  /** A new row carries no attempts and no error, and both its times are the same. */
  lemma RowExact(p: Policy, a: Action, lower: string -> string, id: string, now: int)
    requires BuildSuggestion(p, a, lower).Built?
    ensures
      var r := RowOf(p, a, lower, id, now);
      r.id == id && r.attempts == 0 && r.lastError == "" && r.createdAt == now == r.updatedAt
  {
  }

  // --------------------------------------------------------------- through a queue

  /** Whatever happens to a queue: a new row, or the result of a submission. */
  datatype Event = Arrive(row: Queued) | Mark(id: string, s: Submission, at: int)

  /** The marks of a replay: the first `k` claimed items, each with its outcome. */
  function MarksOf(items: seq<Queued>, outcomes: nat -> Submission, clock: nat -> int, k: nat): (r: seq<Event>)
    requires k <= |items|
    ensures |r| == k
  {
    if k == 0 then []
    else MarksOf(items, outcomes, clock, k - 1) + [Mark(items[k - 1].id, outcomes(k - 1), clock(k - 1))]
  }

  /** One suggestion per claimed item, in order. */
  ghost predicate Rebuilt(items: seq<Queued>, submitted: seq<Suggestion>) {
    |submitted| == |items| && forall k :: 0 <= k < |items| ==> submitted[k] == FromQueued(items[k])
  }

  /** Rebuilds the suggestion of the next item, `items[|submitted|]`. */
  method RebuildNext(items: seq<Queued>, submitted: seq<Suggestion>) returns (r: seq<Suggestion>)
    requires |submitted| < |items| && Rebuilt(items[..|submitted|], submitted)
    ensures |r| == |submitted| + 1 && Rebuilt(items[..|r|], r)
  {
    var q := items[|submitted|];
    r := submitted + [FromQueued(q)];
    assert items[..|r|] == items[..|submitted|] + [q];
  }

  /** `q` is `row` after any number of failed attempts. */
  predicate Retried(q: Queued, row: Queued) {
    q == row.(attempts := q.attempts, lastError := q.lastError, updatedAt := q.updatedAt)
  }

  /** `q` came into the queue by one of the events. */
  ghost predicate Arrived(events: seq<Event>, q: Queued) {
    exists j :: 0 <= j < |events| && events[j].Arrive? && Retried(q, events[j].row)
  }

  /** New rows get new IDs. */
  ghost predicate NewIds(events: seq<Event>) {
    forall i, j :: 0 <= i < j < |events| && events[i].Arrive? && events[j].Arrive? ==>
      events[i].row.id != events[j].row.id
  }

  /** What one event does to the rows of a queue. */
  type Effect = (seq<Queued>, Event) -> seq<Queued>

  function AfterEvents(after: Effect, rows: seq<Queued>, events: seq<Event>): seq<Queued>
    decreases |events|
  {
    if events == [] then rows else AfterEvents(after, after(rows, events[0]), events[1..])
  }

  lemma {:induction false} EventsSnoc(after: Effect, rows: seq<Queued>, events: seq<Event>, ev: Event)
    ensures AfterEvents(after, rows, events + [ev]) == after(AfterEvents(after, rows, events), ev)
    decreases |events|
  {
    if events == [] {
      assert [ev][1..] == [] && [] + [ev] == [ev];
    } else {
      EventsSnoc(after, after(rows, events[0]), events[1..], ev);
      assert (events + [ev])[1..] == events[1..] + [ev];
    }
  }

  /** A row after the event is the one that arrives, or was there before it. */
  ghost predicate HasOrigin(rows: seq<Queued>, ev: Event, q: Queued) {
    (ev.Arrive? && q == ev.row) || exists y :: y in rows && Retried(q, y)
  }

  /** A row of the queue came from the start or by one of the events, and nothing
      but its attempts, last error and update time has changed since. */
  lemma {:induction false} EventsOrigin(after: Effect, rows: seq<Queued>, events: seq<Event>, q: Queued)
    requires forall rs, ev, r :: r in after(rs, ev) ==> HasOrigin(rs, ev, r)
    requires q in AfterEvents(after, rows, events)
    ensures Arrived(events, q) || exists y :: y in rows && Retried(q, y)
    decreases |events|
  {
    if events == [] {
      assert Retried(q, q);
    } else {
      var next := after(rows, events[0]);
      EventsOrigin(after, next, events[1..], q);
      if Arrived(events[1..], q) {
        var j :| 0 <= j < |events[1..]| && events[1..][j].Arrive? && Retried(q, events[1..][j].row);
        assert events[j + 1].Arrive? && Retried(q, events[j + 1].row);
      } else {
        var y :| y in next && Retried(q, y);
        assert HasOrigin(rows, events[0], y);
        if z :| z in rows && Retried(y, z) { assert Retried(q, z); }
      }
    }
  }

  /** The row a built suggestion becomes when it cannot be delivered. */
  ghost function RowOf(p: Policy, a: Action, lower: string -> string, id: string, now: int): Queued
    requires BuildSuggestion(p, a, lower).Built?
  {
    Stored(ToQueued(p, BuildSuggestion(p, a, lower).suggestion), id, now)
  }

  /** A suggestion rebuilt from its row, however often that was retried, is the
      one that was built, under the row's ID. */
  lemma RowRoundTrip(p: Policy, a: Action, lower: string -> string, id: string, now: int, q: Queued)
    requires BuildSuggestion(p, a, lower).Built? && Retried(q, RowOf(p, a, lower, id, now))
    ensures FromQueued(q) == BuildSuggestion(p, a, lower).suggestion.(id := id)
  {
    ActionTypeRoundTrip(BuildSuggestion(p, a, lower).suggestion.actionType);
  }

  /** The row under an ID is the one that arrived under it. */
  lemma OneArrival(events: seq<Event>, q: Queued, row: Queued)
    requires NewIds(events) && Arrived(events, q) && Arrive(row) in events && q.id == row.id
    ensures Retried(q, row)
  {
    var i :| 0 <= i < |events| && events[i].Arrive? && Retried(q, events[i].row);
    var j :| 0 <= j < |events| && events[j] == Arrive(row);
    assert i == j || i < j || j < i;
  }

  lemma ArrivedRoundTrip(events: seq<Event>, p: Policy, a: Action, lower: string -> string,
                         id: string, now: int, q: Queued)
    requires NewIds(events) && Arrived(events, q) && BuildSuggestion(p, a, lower).Built?
    requires Arrive(RowOf(p, a, lower, id, now)) in events && q.id == id
    ensures FromQueued(q) == BuildSuggestion(p, a, lower).suggestion.(id := id)
  {
    OneArrival(events, q, RowOf(p, a, lower, id, now));
    RowRoundTrip(p, a, lower, id, now, q);
  }
}
