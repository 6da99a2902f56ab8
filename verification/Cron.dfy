/** Cron conditions of the automation engine: a policy fires for the next tick
    after one minute ago, if that has come and was not the last one fired. */
module Cron {
  import opened Wrappers
  import opened Int64

  /** A parsed expression: its ticks and the library's "next tick after". */
  datatype Schedule = Schedule(tick: int -> bool, next: int -> Option<int>)

  /** Five-field expressions tick on whole minutes, and `next` is the least tick
      strictly after its argument. */
  ghost predicate Lawful(s: Schedule) {
    && (forall t :: s.tick(t) ==> t % MINUTE == 0)
    && (forall t :: s.next(t).Some? ==>
          t < s.next(t).value && s.tick(s.next(t).value) && forall u :: t < u < s.next(t).value ==> !s.tick(u))
  }

  /** When the library finds no tick it answers the zero time. */
  function Due(s: Schedule, now: int): int {
    match s.next(now - MINUTE)
    case None => ZERO_TIME
    case Some(u) => u
  }

  /** What one evaluation does to the last-trigger map. */
  function Matches(last: map<string, int>, id: string, s: Schedule, now: int): bool {
    Due(s, now) <= now && !(id in last && last[id] == Due(s, now))
  }

  function AfterEval(last: map<string, int>, id: string, s: Schedule, now: int): map<string, int> {
    if Matches(last, id, s, now) then last[id := Due(s, now)] else last
  }

  class CronEngine {
    var lastTrigger: map<string, int>

    constructor ()
      ensures lastTrigger == map[]
    {
      lastTrigger := map[];
    }

    method AlreadyTriggered(id: string, at: int) returns (r: bool)
      ensures r <==> id in lastTrigger && lastTrigger[id] == at
    {
      if id !in lastTrigger { return false; }
      return lastTrigger[id] == at;
    }

    method MarkTriggered(id: string, at: int)
      modifies this
      ensures lastTrigger == old(lastTrigger)[id := at]
    {
      lastTrigger := lastTrigger[id := at];
    }

    method EvaluateCron(id: string, s: Schedule, now: int) returns (matched: bool)
      modifies this
      ensures matched == Matches(old(lastTrigger), id, s, now)
      ensures lastTrigger == AfterEval(old(lastTrigger), id, s, now)
    {
      var found := s.next(now - MINUTE);
      var next := if found.Some? then found.value else ZERO_TIME;
      if next > now { return false; }
      var already := AlreadyTriggered(id, next);
      if already { return false; }
      MarkTriggered(id, next);
      return true;
    }
  }

  // ------------------------------------------------------------------------ runs

  /** Evaluations of many policies, one after another. */
  datatype Eval = Eval(id: string, schedule: Schedule, now: int)

  function LastAfter(run: seq<Eval>): map<string, int> {
    if run == [] then map[]
    else
      var e := run[|run| - 1];
      AfterEval(LastAfter(run[..|run| - 1]), e.id, e.schedule, e.now)
  }

  /** The ticks for which policy `p` fired, in order. */
  function Fired(run: seq<Eval>, p: string): seq<int> {
    if run == [] then []
    else
      var init, e := run[..|run| - 1], run[|run| - 1];
      if e.id == p && Matches(LastAfter(init), p, e.schedule, e.now)
      then Fired(init, p) + [Due(e.schedule, e.now)] else Fired(init, p)
  }

  /** The clock readings of `p`'s evaluations. */
  function Times(run: seq<Eval>, p: string): seq<int> {
    if run == [] then []
    else
      var e := run[|run| - 1];
      Times(run[..|run| - 1], p) + if e.id == p then [e.now] else []
  }

  /** The same for one policy alone, remembering only its last firing. */
  function FiredAt(s: Schedule, ts: seq<int>): seq<int> {
    if ts == [] then []
    else
      var before, now := FiredAt(s, ts[..|ts| - 1]), ts[|ts| - 1];
      if Due(s, now) > now || (before != [] && before[|before| - 1] == Due(s, now)) then before
      else before + [Due(s, now)]
  }

  /** Policies do not disturb each other. */
  lemma {:induction false} FiredProjects(run: seq<Eval>, p: string, s: Schedule)
    requires forall i :: 0 <= i < |run| && run[i].id == p ==> run[i].schedule == s
    ensures
      var f := FiredAt(s, Times(run, p));
      && Fired(run, p) == f
      && (p in LastAfter(run) <==> f != [])
      && (f != [] ==> LastAfter(run)[p] == f[|f| - 1])
  {
    if run != [] {
      var init, e := run[..|run| - 1], run[|run| - 1];
      FiredProjects(init, p, s);
      if e.id == p {
        var ts := Times(run, p);
        assert ts[..|ts| - 1] == Times(init, p);
      } else {
        assert Times(run, p) == Times(init, p);
      }
    }
  }

  ghost predicate Nondecreasing(ts: seq<int>) {
    forall i, j :: 0 <= i < j < |ts| ==> ts[i] <= ts[j]
  }

  ghost predicate Increasing(ts: seq<int>) {
    forall i, j :: 0 <= i < j < |ts| ==> ts[i] < ts[j]
  }

  /** An evaluation at `now` finds `t` to be due. */
  predicate IsDue(s: Schedule, now: int, t: int) {
    Due(s, now) == t && t <= now
  }

  predicate DueSometime(s: Schedule, ts: seq<int>, t: int) {
    exists k :: 0 <= k < |ts| && IsDue(s, ts[k], t)
  }

  /** The library finds a tick at every evaluation. */
  predicate Answers(s: Schedule, ts: seq<int>) {
    forall i :: 0 <= i < |ts| ==> s.next(ts[i] - MINUTE).Some?
  }

  /** Some evaluation falls into the minute that starts at `t`. */
  predicate Seen(ts: seq<int>, t: int) {
    exists k :: 0 <= k < |ts| && t <= ts[k] < t + MINUTE
  }

  /** Tick `t` is due, then a different one, then `t` again. */
  predicate DueAgain(s: Schedule, ts: seq<int>, t: int, i: int, j: int, k: int) {
    && 0 <= i < j < k < |ts| && IsDue(s, ts[i], t) && IsDue(s, ts[k], t)
    && Due(s, ts[j]) <= ts[j] && Due(s, ts[j]) != t
  }

  ghost predicate Returns(s: Schedule, ts: seq<int>, t: int) {
    exists i, j, k :: DueAgain(s, ts, t, i, j, k)
  }

  lemma SameMinute(u: int, t: int)
    requires u % MINUTE == 0 && t % MINUTE == 0 && u <= t < u + MINUTE
    ensures u == t
  {
  }

  /** A window of one minute holds one whole minute, so a tick is due exactly
      during the minute it starts. */
  lemma DueExactly(s: Schedule, now: int, t: int)
    requires Lawful(s) && s.next(now - MINUTE).Some?
    ensures IsDue(s, now, t) <==> s.tick(t) && t <= now < t + MINUTE
  {
    var u := Due(s, now);
    if s.tick(t) && t <= now < t + MINUTE { SameMinute(u, t); }
  }

  // ------------------------------------------------- what fires, on any clock

  lemma DueSnoc(s: Schedule, init: seq<int>, now: int, t: int)
    ensures DueSometime(s, init + [now], t) <==> DueSometime(s, init, t) || IsDue(s, now, t)
  {
    var ts := init + [now];
    if DueSometime(s, init, t) {
      var k :| 0 <= k < |init| && IsDue(s, init[k], t);
      assert IsDue(s, ts[k], t);
    }
    assert ts[|init|] == now;
  }

  /** The last firing is for what the last due evaluation, at index `m`, found. */
  ghost predicate LastDue(s: Schedule, ts: seq<int>, f: seq<int>, m: int) {
    && -1 <= m < |ts| && (f == [] <==> m == -1)
    && (m >= 0 ==> IsDue(s, ts[m], f[|f| - 1]))
    && forall j :: m < j < |ts| ==> Due(s, ts[j]) > ts[j]
  }

  lemma {:induction false} FiredFacts(s: Schedule, ts: seq<int>) returns (m: int)
    ensures LastDue(s, ts, FiredAt(s, ts), m)
    ensures forall t :: t in FiredAt(s, ts) <==> DueSometime(s, ts, t)
  {
    m := -1;
    if ts != [] {
      var init, now := ts[..|ts| - 1], ts[|ts| - 1];
      assert ts == init + [now];
      m := FiredFacts(s, init);
      forall t ensures t in FiredAt(s, ts) <==> DueSometime(s, ts, t) { DueSnoc(s, init, now, t); }
      if Due(s, now) <= now { m := |init|; }
    }
  }

  lemma ReturnsGrows(s: Schedule, init: seq<int>, now: int, t: int)
    requires Returns(s, init, t)
    ensures Returns(s, init + [now], t)
  {
    var i, j, k :| DueAgain(s, init, t, i, j, k);
    assert DueAgain(s, init + [now], t, i, j, k);
  }

  lemma NewReturn(s: Schedule, init: seq<int>, now: int, t: int, f: seq<int>, m: int)
    requires LastDue(s, init, f, m) && f != [] && f[|f| - 1] != t
    requires DueSometime(s, init, t) && IsDue(s, now, t)
    ensures Returns(s, init + [now], t)
  {
    var i :| 0 <= i < |init| && IsDue(s, init[i], t);
    assert i < m;
    assert DueAgain(s, init + [now], t, i, m, |init|);
  }

  lemma ReturnCause(s: Schedule, init: seq<int>, now: int, t: int, f: seq<int>, m: int)
    requires LastDue(s, init, f, m) && Returns(s, init + [now], t)
    ensures Returns(s, init, t) ||
            (IsDue(s, now, t) && f != [] && f[|f| - 1] != t && DueSometime(s, init, t))
  {
    var i, j, k :| DueAgain(s, init + [now], t, i, j, k);
    assert IsDue(s, init[i], t) && Due(s, init[j]) <= init[j] && Due(s, init[j]) != t;
    assert j <= m;
    if k < |init| {
      assert DueAgain(s, init, t, i, j, k);
    } else if f[|f| - 1] == t {
      assert DueAgain(s, init, t, i, j, m);
    }
  }

  /** Only the last firing is remembered, so a tick fires more than once exactly
      when it is due again after a different one: on any clock, for any schedule. */
  lemma {:induction false} FiresAgainIff(s: Schedule, ts: seq<int>, t: int)
    ensures multiset(FiredAt(s, ts))[t] > 1 <==> Returns(s, ts, t)
  {
    if ts != [] {
      var init, now := ts[..|ts| - 1], ts[|ts| - 1];
      assert ts == init + [now];
      FiresAgainIff(s, init, t);
      FiresAgainStep(s, init, now, t);
    } else {
      assert FiredAt(s, ts) == [];
    }
  }

  lemma FiresAgainStep(s: Schedule, init: seq<int>, now: int, t: int)
    requires multiset(FiredAt(s, init))[t] > 1 <==> Returns(s, init, t)
    ensures multiset(FiredAt(s, init + [now]))[t] > 1 <==> Returns(s, init + [now], t)
  {
    var f := FiredAt(s, init);
    var m := FiredFacts(s, init);
    var isNew := IsDue(s, now, t) && (f == [] || f[|f| - 1] != t);
    FiredCount(s, init, now, t);
    assert t in f <==> multiset(f)[t] > 0;
    if Returns(s, init + [now], t) { ReturnCause(s, init, now, t, f, m); }
    if Returns(s, init, t) { ReturnsGrows(s, init, now, t); }
    if isNew && t in f { NewReturn(s, init, now, t, f, m); }
  }

  lemma FiredCount(s: Schedule, init: seq<int>, now: int, t: int)
    ensures
      var f := FiredAt(s, init);
      multiset(FiredAt(s, init + [now]))[t] ==
      multiset(f)[t] + if IsDue(s, now, t) && (f == [] || f[|f| - 1] != t) then 1 else 0
  {
    var ts, f, due := init + [now], FiredAt(s, init), Due(s, now);
    assert ts[..|ts| - 1] == init && ts[|ts| - 1] == now;
    if due > now || (f != [] && f[|f| - 1] == due) {
      assert FiredAt(s, ts) == f;
    } else {
      assert FiredAt(s, ts) == f + [due];
      assert multiset(f + [due])[t] == multiset(f)[t] + if t == due then 1 else 0;
    }
  }

  /** For policies evaluated in any interleaving: no firing repeats exactly when
      no tick returns. */
  lemma NoRepeatIff(run: seq<Eval>, p: string, s: Schedule)
    requires forall i :: 0 <= i < |run| && run[i].id == p ==> run[i].schedule == s
    ensures (forall t :: multiset(Fired(run, p))[t] <= 1) <==> (forall t :: !Returns(s, Times(run, p), t))
  {
    FiredProjects(run, p, s);
    forall t ensures multiset(Fired(run, p))[t] <= 1 <==> !Returns(s, Times(run, p), t) {
      FiresAgainIff(s, Times(run, p), t);
    }
  }

  /** The library finds a tick at every evaluation from the zero time on, or the
      zero time is itself a tick. */
  ghost predicate TicksFound(s: Schedule, ts: seq<int>) {
    s.tick(ZERO_TIME) || forall i :: 0 <= i < |ts| && ts[i] >= ZERO_TIME ==> s.next(ts[i] - MINUTE).Some?
  }

  lemma TicksOnlyIff(s: Schedule, ts: seq<int>)
    requires Lawful(s)
    ensures (forall t :: t in FiredAt(s, ts) ==> s.tick(t)) <==> TicksFound(s, ts)
  {
    var m := FiredFacts(s, ts);
    var f := FiredAt(s, ts);
    if i :| 0 <= i < |ts| && ts[i] >= ZERO_TIME && s.next(ts[i] - MINUTE).None? {
      assert IsDue(s, ts[i], ZERO_TIME);
      assert DueSometime(s, ts, ZERO_TIME);
    }
    forall t | t in f && TicksFound(s, ts) ensures s.tick(t) {
      var k :| 0 <= k < |ts| && IsDue(s, ts[k], t);
    }
  }

  /** Every firing is a tick exactly when the library finds one at every
      evaluation from the zero time on, or the zero time is itself a tick. */
  lemma FiringsAreTicksIff(run: seq<Eval>, p: string, s: Schedule)
    requires Lawful(s) && forall i :: 0 <= i < |run| && run[i].id == p ==> run[i].schedule == s
    ensures (forall t :: t in Fired(run, p) ==> s.tick(t)) <==> TicksFound(s, Times(run, p))
  {
    FiredProjects(run, p, s);
    TicksOnlyIff(s, Times(run, p));
  }

  /** On any clock, while the library finds ticks: a tick fires exactly when some
      evaluation falls into its minute.  If the clock does not run backwards the
      firings are also strictly increasing. */
  lemma FiredExactly(s: Schedule, ts: seq<int>, t: int)
    requires Lawful(s) && Answers(s, ts)
    ensures t in FiredAt(s, ts) <==> s.tick(t) && Seen(ts, t)
    ensures Nondecreasing(ts) ==> Increasing(FiredAt(s, ts))
  {
    var m := FiredFacts(s, ts);
    if s.tick(t) && Seen(ts, t) {
      var k :| 0 <= k < |ts| && t <= ts[k] < t + MINUTE;
      DueExactly(s, ts[k], t);
    }
    if DueSometime(s, ts, t) {
      var k :| 0 <= k < |ts| && IsDue(s, ts[k], t);
      DueExactly(s, ts[k], t);
    }
    if Nondecreasing(ts) { FiredIncreasing(s, ts); }
  }

  lemma {:induction false} FiredIncreasing(s: Schedule, ts: seq<int>)
    requires Lawful(s) && Answers(s, ts) && Nondecreasing(ts)
    ensures Increasing(FiredAt(s, ts))
  {
    if ts != [] {
      var init, now := ts[..|ts| - 1], ts[|ts| - 1];
      assert ts == init + [now] && forall i :: 0 <= i < |init| ==> init[i] == ts[i];
      FiredIncreasing(s, init);
      FiredIncreasingStep(s, init, now, FiredAt(s, init));
    }
  }

  lemma FiredIncreasingStep(s: Schedule, init: seq<int>, now: int, f: seq<int>)
    requires Lawful(s) && Answers(s, init) && s.next(now - MINUTE).Some? && f == FiredAt(s, init) && Increasing(f)
    requires forall i :: 0 <= i < |init| ==> init[i] <= now
    ensures Due(s, now) <= now && (f == [] || f[|f| - 1] != Due(s, now)) ==> Increasing(f + [Due(s, now)])
  {
    var m := FiredFacts(s, init);
    var due := Due(s, now);
    if due <= now && (f == [] || f[|f| - 1] != due) {
      if f != [] {
        DueExactly(s, init[m], f[|f| - 1]);
        DueExactly(s, now, due);
        DueIsLater(f[|f| - 1], due, now);
      }
      IncreasingSnoc(f, due);
    }
  }

  lemma IncreasingSnoc(f: seq<int>, t: int)
    requires Increasing(f) && (f != [] ==> f[|f| - 1] < t)
    ensures Increasing(f + [t])
  {
  }

  lemma DueIsLater(last: int, due: int, now: int)
    requires last % MINUTE == 0 && due % MINUTE == 0 && last <= now < due + MINUTE && last != due
    ensures last < due
  {
    if last > due { SameMinute(due, last); }
  }

  lemma DueBetween(s: Schedule, a: int, b: int, c: int, t: int)
    requires Lawful(s) && s.next(a - MINUTE).Some? && s.next(b - MINUTE).Some? && s.next(c - MINUTE).Some?
    requires a <= b <= c && IsDue(s, a, t) && IsDue(s, c, t)
    ensures IsDue(s, b, t)
  {
    DueExactly(s, a, t);
    DueExactly(s, b, t);
    DueExactly(s, c, t);
  }

  /** A clock that does not run backwards lets no tick return. */
  lemma ForwardNeverReturns(s: Schedule, ts: seq<int>, t: int)
    requires Lawful(s) && Answers(s, ts) && Nondecreasing(ts)
    ensures !Returns(s, ts, t)
  {
    forall i, j, k | 0 <= i < j < k < |ts| && IsDue(s, ts[i], t) && IsDue(s, ts[k], t)
      ensures !DueAgain(s, ts, t, i, j, k)
    {
      DueBetween(s, ts[i], ts[j], ts[k], t);
    }
  }

  /** Readings that do not run backwards, at most a minute apart, and span `t`. */
  ghost predicate Minutely(ts: seq<int>, t: int) {
    && ts != [] && ts[0] <= t <= ts[|ts| - 1] && Nondecreasing(ts)
    && forall i :: 0 < i < |ts| ==> ts[i] - ts[i - 1] <= MINUTE
  }

  lemma {:induction false} GapsSee(ts: seq<int>, t: int)
    requires Minutely(ts, t)
    ensures Seen(ts, t)
  {
    var n := |ts| - 1;
    if t == ts[n] || n == 0 {
      assert t <= ts[n] < t + MINUTE;
    } else if ts[n - 1] < t {
      assert ts[n] - ts[n - 1] <= MINUTE;
      assert t <= ts[n] < t + MINUTE;
    } else {
      var init := ts[..n];
      assert forall i :: 0 <= i < |init| ==> init[i] == ts[i];
      GapsSee(init, t);
      var k :| 0 <= k < |init| && t <= init[k] < t + MINUTE;
      assert t <= ts[k] < t + MINUTE;
    }
  }

  /** Exactly once, on any clock: a tick fires once and only once exactly when it
      is seen and does not return. */
  lemma FiresOnceIff(run: seq<Eval>, p: string, s: Schedule, t: int)
    requires Lawful(s) && Answers(s, Times(run, p))
    requires forall i :: 0 <= i < |run| && run[i].id == p ==> run[i].schedule == s
    ensures
      var ts := Times(run, p);
      multiset(Fired(run, p))[t] == 1 <==> s.tick(t) && Seen(ts, t) && !Returns(s, ts, t)
  {
    var ts := Times(run, p);
    FiredProjects(run, p, s);
    FiredExactly(s, ts, t);
    FiresAgainIff(s, ts, t);
    assert t in FiredAt(s, ts) <==> t in multiset(FiredAt(s, ts));
  }

  /** In any interleaving of policies, when `p` is evaluated at least every minute
      on a clock that does not run backwards, every tick between its first and
      last evaluation fires once and only once. */
  lemma CronExactlyOnce(run: seq<Eval>, p: string, s: Schedule, t: int)
    requires Lawful(s) && Answers(s, Times(run, p)) && s.tick(t)
    requires forall i :: 0 <= i < |run| && run[i].id == p ==> run[i].schedule == s
    requires Minutely(Times(run, p), t)
    ensures multiset(Fired(run, p))[t] == 1
  {
    var ts := Times(run, p);
    GapsSee(ts, t);
    ForwardNeverReturns(s, ts, t);
    FiresOnceIff(run, p, s, t);
  }

  // ------------------------------------------------------------ limits of the claim

  /** An expression that never ticks is due at the zero time, so it fires once,
      at the first evaluation. */
  lemma {:induction false} NeverTickingFiresOnce(s: Schedule, ts: seq<int>)
    requires ts != [] && forall t :: s.next(t) == None
    requires forall i :: 0 <= i < |ts| ==> ts[i] >= ZERO_TIME
    ensures FiredAt(s, ts) == [ZERO_TIME]
  {
    var init := ts[..|ts| - 1];
    if init != [] { NeverTickingFiresOnce(s, init); }
  }

  function EveryMinute(): Schedule {
    Schedule(t => t % MINUTE == 0, t => Some((t / MINUTE + 1) * MINUTE))
  }

  lemma EveryMinuteIsLawful()
    ensures Lawful(EveryMinute())
  {
    var s := EveryMinute();
    forall t ensures
      var u := s.next(t).value;
      t < u && s.tick(u) && forall v :: t < v < u ==> !s.tick(v)
    {
      var q := t / MINUTE;
      assert t == q * MINUTE + t % MINUTE && (q + 1) * MINUTE == q * MINUTE + MINUTE;
      assert ((q + 1) * MINUTE) % MINUTE == 0;
      forall v | t < v < (q + 1) * MINUTE ensures v % MINUTE != 0 {
        assert v / MINUTE == q;
        assert v == q * MINUTE + v % MINUTE;
      }
    }
  }

  lemma WholeMinuteIsDue(t: int)
    requires t % MINUTE == 0
    ensures Due(EveryMinute(), t) == t
  {
    assert t == (t / MINUTE) * MINUTE;
    assert (t - MINUTE) / MINUTE == t / MINUTE - 1;
  }

  /** When the clock steps back, a tick can fire twice, although the schedule is
      lawful and the library finds a tick every time. */
  lemma ClockStepBackFiresTwice(t: int)
    requires t % MINUTE == 0
    ensures Lawful(EveryMinute()) && Answers(EveryMinute(), [t, t + MINUTE, t])
    ensures FiredAt(EveryMinute(), [t, t + MINUTE, t]) == [t, t + MINUTE, t]
  {
    EveryMinuteIsLawful();
    AlwaysAnswers([t, t + MINUTE, t]);
    StepBack(t, t + MINUTE);
  }

  lemma AlwaysAnswers(ts: seq<int>)
    ensures Answers(EveryMinute(), ts)
  {
  }

  lemma StepBack(a: int, b: int)
    requires a % MINUTE == 0 && b % MINUTE == 0 && a != b
    ensures FiredAt(EveryMinute(), [a, b, a]) == [a, b, a]
  {
    WholeMinuteIsDue(a);
    WholeMinuteIsDue(b);
    FiresThrice(EveryMinute(), a, b);
  }

  lemma FiresThrice(s: Schedule, a: int, b: int)
    requires Due(s, a) == a && Due(s, b) == b && a != b
    ensures FiredAt(s, [a, b, a]) == [a, b, a]
  {
    assert [a][..0] == [] && [a, b][..1] == [a] && [a, b, a][..2] == [a, b];
    assert FiredAt(s, [a]) == [a];
    assert FiredAt(s, [a, b]) == [a, b];
  }
}
