/** Admission to the inference provider: a rate limit and a circuit breaker, with
    calls in flight that may succeed or fail in any order. */
module Breaker {
  import opened Wrappers

  datatype Config = Config(minInterval: int, threshold: int, cooldown: int)

  datatype Verdict = Admitted | RateLimited | CircuitOpen

  /** `None` stands for the zero time. */
  datatype Gate = Gate(lastRequest: Option<int>, failures: nat, openUntil: Option<int>)

  const NEW_GATE := Gate(None, 0, None)

  function Judge(cfg: Config, g: Gate, now: int): Verdict {
    if g.openUntil.Some? && now < g.openUntil.value then CircuitOpen
    else if g.lastRequest.Some? && now - g.lastRequest.value < cfg.minInterval then RateLimited
    else Admitted
  }

  /** What happens at the gate: a call asks for admission, or an admitted call
      reports how it ended. */
  datatype Event = Ask(now: int) | Fail(now: int) | Succeed(now: int)

  function After(cfg: Config, g: Gate, e: Event): Gate {
    match e
    case Ask(now) => if Judge(cfg, g, now) == Admitted then g.(lastRequest := Some(now)) else g
    case Fail(now) =>
      var g' := g.(failures := g.failures + 1);
      if g'.failures >= cfg.threshold then g'.(openUntil := Some(now + cfg.cooldown)) else g'
    case Succeed(_) => g.(failures := 0, openUntil := None)
  }

  class Engine {
    const cfg: Config
    var gate: Gate

    constructor (cfg: Config)
      ensures this.cfg == cfg && gate == NEW_GATE
    {
      this.cfg, gate := cfg, NEW_GATE;
    }

    method Admit(now: int) returns (v: Verdict)
      modifies this
      ensures v == Judge(cfg, old(gate), now) && gate == After(cfg, old(gate), Ask(now))
    {
      if gate.openUntil.Some? && now < gate.openUntil.value { return CircuitOpen; }
      if gate.lastRequest.Some? && now - gate.lastRequest.value < cfg.minInterval { return RateLimited; }
      gate := gate.(lastRequest := Some(now));
      return Admitted;
    }

    method RecordFailure(now: int)
      modifies this
      ensures gate == After(cfg, old(gate), Fail(now))
    {
      gate := gate.(failures := gate.failures + 1);
      if gate.failures >= cfg.threshold { gate := gate.(openUntil := Some(now + cfg.cooldown)); }
    }

    method RecordSuccess(now: int)
      modifies this
      ensures gate == After(cfg, old(gate), Succeed(now))
    {
      gate := gate.(failures := 0, openUntil := None);
    }
  }

  // ------------------------------------------------------------------------ runs

  function GateAt(cfg: Config, run: seq<Event>, n: nat): Gate
    requires n <= |run|
  {
    if n == 0 then NEW_GATE else After(cfg, GateAt(cfg, run, n - 1), run[n - 1])
  }

  /** What call `n` is told. */
  function VerdictAt(cfg: Config, run: seq<Event>, n: nat): Verdict
    requires n < |run| && run[n].Ask?
  {
    Judge(cfg, GateAt(cfg, run, n), run[n].now)
  }

  ghost predicate Nondecreasing(run: seq<Event>) {
    forall i, j :: 0 <= i < j < |run| ==> run[i].now <= run[j].now
  }

  // -------------------------------------------------------------------- the rule

  /** Failures recorded since the last success, among the first `n` events. */
  function FailuresSince(run: seq<Event>, n: nat): nat
    requires n <= |run|
  {
    if n == 0 || run[n - 1].Succeed? then 0
    else FailuresSince(run, n - 1) + if run[n - 1].Fail? then 1 else 0
  }

  /** Event `j` is a failure that reaches the threshold. */
  predicate Trips(cfg: Config, run: seq<Event>, j: nat)
    requires j < |run|
  {
    run[j].Fail? && FailuresSince(run, j + 1) >= cfg.threshold
  }

  /** Event `j` tripped the breaker and no success has been recorded up to `n`. */
  ghost predicate Tripped(cfg: Config, run: seq<Event>, j: nat, n: nat)
    requires n <= |run|
  {
    j < n && Trips(cfg, run, j) && forall i :: j < i < n ==> !run[i].Succeed?
  }

  ghost predicate Open(cfg: Config, run: seq<Event>, n: nat)
    requires n < |run|
  {
    exists j: nat :: Tripped(cfg, run, j, n) && run[n].now < run[j].now + cfg.cooldown
  }

  ghost predicate TooSoon(cfg: Config, run: seq<Event>, n: nat)
    requires n < |run|
    decreases n, 0
  {
    exists j: nat :: j < n && RuleAdmits(cfg, run, j) && run[n].now - run[j].now < cfg.minInterval
  }

  /** The rule, from the history alone: a call is admitted unless a failure that
      reached the threshold is still cooling down with no success since, or a
      call was admitted less than the interval ago. */
  ghost predicate RuleAdmits(cfg: Config, run: seq<Event>, n: nat)
    requires n < |run|
    decreases n, 1
  {
    run[n].Ask? && !Open(cfg, run, n) && !TooSoon(cfg, run, n)
  }

  // ------------------------------------------------------------------ refinement

  ghost predicate LastExact(cfg: Config, run: seq<Event>, n: nat, last: Option<int>)
    requires n <= |run|
  {
    && (last.None? ==> forall j: nat :: j < n ==> !RuleAdmits(cfg, run, j))
    && (last.Some? ==>
          && (exists j: nat :: j < n && RuleAdmits(cfg, run, j) && run[j].now == last.value)
          && (forall j: nat :: j < n && RuleAdmits(cfg, run, j) ==> run[j].now <= last.value))
  }

  ghost predicate OpenExact(cfg: Config, run: seq<Event>, n: nat, until: Option<int>)
    requires n <= |run|
  {
    && (until.None? ==> forall j: nat :: !Tripped(cfg, run, j, n))
    && (until.Some? ==>
          && (exists j: nat :: Tripped(cfg, run, j, n) && run[j].now + cfg.cooldown == until.value)
          && (forall j: nat :: Tripped(cfg, run, j, n) ==> run[j].now + cfg.cooldown <= until.value))
  }

  ghost predicate GateExact(cfg: Config, run: seq<Event>, n: nat)
    requires n <= |run|
  {
    var g := GateAt(cfg, run, n);
    g.failures == FailuresSince(run, n) && LastExact(cfg, run, n, g.lastRequest) && OpenExact(cfg, run, n, g.openUntil)
  }

  lemma OpenMatches(cfg: Config, run: seq<Event>, n: nat, until: Option<int>)
    requires n < |run| && OpenExact(cfg, run, n, until)
    ensures Open(cfg, run, n) <==> until.Some? && run[n].now < until.value
  {
  }

  lemma LimitMatches(cfg: Config, run: seq<Event>, n: nat, last: Option<int>)
    requires n < |run| && LastExact(cfg, run, n, last)
    ensures TooSoon(cfg, run, n) <==> last.Some? && run[n].now - last.value < cfg.minInterval
  {
  }

  lemma VerdictMatches(cfg: Config, run: seq<Event>, n: nat)
    requires n < |run| && run[n].Ask? && GateExact(cfg, run, n)
    ensures VerdictAt(cfg, run, n) == if Open(cfg, run, n) then CircuitOpen
      else if TooSoon(cfg, run, n) then RateLimited else Admitted
    ensures VerdictAt(cfg, run, n) == Admitted <==> RuleAdmits(cfg, run, n)
  {
    var g := GateAt(cfg, run, n);
    OpenMatches(cfg, run, n, g.openUntil);
    LimitMatches(cfg, run, n, g.lastRequest);
  }

  lemma TrippedStep(cfg: Config, run: seq<Event>, n: nat, j: nat)
    requires n < |run|
    ensures Tripped(cfg, run, j, n + 1) <==>
            (Tripped(cfg, run, j, n) && !run[n].Succeed?) || (j == n && Trips(cfg, run, n))
  {
  }

  lemma OpenStep(cfg: Config, run: seq<Event>, n: nat)
    requires Nondecreasing(run) && n < |run| && GateExact(cfg, run, n)
    ensures OpenExact(cfg, run, n + 1, GateAt(cfg, run, n + 1).openUntil)
  {
    var until, until' := GateAt(cfg, run, n).openUntil, GateAt(cfg, run, n + 1).openUntil;
    assert FailuresSince(run, n + 1) == if run[n].Succeed? then 0
      else FailuresSince(run, n) + if run[n].Fail? then 1 else 0;
    assert until' == if Trips(cfg, run, n) then Some(run[n].now + cfg.cooldown) else if run[n].Succeed? then None
      else until;
    forall j: nat | Tripped(cfg, run, j, n + 1)
      ensures until'.Some? && run[j].now + cfg.cooldown <= until'.value
    {
      TrippedStep(cfg, run, n, j);
    }
    if Trips(cfg, run, n) {
      TrippedStep(cfg, run, n, n);
    } else if until'.Some? {
      var j: nat :| Tripped(cfg, run, j, n) && run[j].now + cfg.cooldown == until.value;
      TrippedStep(cfg, run, n, j);
    }
  }

  lemma LastStep(cfg: Config, run: seq<Event>, n: nat)
    requires Nondecreasing(run) && n < |run| && GateExact(cfg, run, n)
    ensures LastExact(cfg, run, n + 1, GateAt(cfg, run, n + 1).lastRequest)
  {
    var last, last' := GateAt(cfg, run, n).lastRequest, GateAt(cfg, run, n + 1).lastRequest;
    if run[n].Ask? { VerdictMatches(cfg, run, n); }
    assert last' == if RuleAdmits(cfg, run, n) then Some(run[n].now) else last;
    if !RuleAdmits(cfg, run, n) && last.Some? {
      var j: nat :| j < n && RuleAdmits(cfg, run, j) && run[j].now == last.value;
      assert j < n + 1;
    }
  }

  lemma FailuresStep(cfg: Config, run: seq<Event>, n: nat)
    requires n < |run| && GateAt(cfg, run, n).failures == FailuresSince(run, n)
    ensures GateAt(cfg, run, n + 1).failures == FailuresSince(run, n + 1)
  {
  }

  lemma GateStep(cfg: Config, run: seq<Event>, n: nat)
    requires Nondecreasing(run) && n < |run| && GateExact(cfg, run, n)
    ensures GateExact(cfg, run, n + 1)
  {
    FailuresStep(cfg, run, n);
    OpenStep(cfg, run, n);
    LastStep(cfg, run, n);
  }

  lemma {:induction false} GateIsExact(cfg: Config, run: seq<Event>, n: nat)
    requires Nondecreasing(run) && n <= |run|
    ensures GateExact(cfg, run, n)
  {
    if n > 0 {
      GateIsExact(cfg, run, n - 1);
      GateStep(cfg, run, n - 1);
    }
  }

  /** In every interleaving, on a clock that does not run backwards, three fields
      decide as the whole history would: the answer follows the rule, the
      breaker is named before the limit, and the counter is the number of
      failures since the last success. */
  lemma GateRefinesRule(cfg: Config, run: seq<Event>, n: nat)
    requires Nondecreasing(run) && n < |run|
    ensures GateAt(cfg, run, n).failures == FailuresSince(run, n)
    ensures run[n].Ask? ==>
      && (VerdictAt(cfg, run, n) == CircuitOpen <==> Open(cfg, run, n))
      && (VerdictAt(cfg, run, n) == RateLimited <==> !Open(cfg, run, n) && TooSoon(cfg, run, n))
      && (VerdictAt(cfg, run, n) == Admitted <==> RuleAdmits(cfg, run, n))
  {
    GateIsExact(cfg, run, n);
    if run[n].Ask? { VerdictMatches(cfg, run, n); }
  }

  // ---------------------------------------------------------------- consequences

  /** Calls at these positions, in order, were all admitted. */
  ghost predicate AllAdmitted(cfg: Config, run: seq<Event>, calls: seq<nat>) {
    && (forall i :: 0 <= i < |calls| ==>
         calls[i] < |run| && run[calls[i]].Ask? && VerdictAt(cfg, run, calls[i]) == Admitted)
    && (forall i, j :: 0 <= i < j < |calls| ==> calls[i] < calls[j])
  }

  lemma AdmittedGap(cfg: Config, run: seq<Event>, a: nat, b: nat)
    requires Nondecreasing(run) && a < b < |run| && run[a].Ask? && run[b].Ask?
    requires VerdictAt(cfg, run, a) == Admitted && VerdictAt(cfg, run, b) == Admitted
    ensures run[b].now - run[a].now >= cfg.minInterval
  {
    GateRefinesRule(cfg, run, a);
    GateRefinesRule(cfg, run, b);
    assert !TooSoon(cfg, run, b);
  }

  /** Any `k` admitted calls span at least `k - 1` intervals. */
  lemma {:induction false} AdmissionsAreSpread(cfg: Config, run: seq<Event>, calls: seq<nat>)
    requires Nondecreasing(run) && AllAdmitted(cfg, run, calls) && calls != []
    ensures run[calls[|calls| - 1]].now - run[calls[0]].now >= (|calls| - 1) * cfg.minInterval
  {
    SpreadUpTo(cfg, run, calls, |calls| - 1);
  }

  lemma {:induction false} SpreadUpTo(cfg: Config, run: seq<Event>, calls: seq<nat>, k: nat)
    requires Nondecreasing(run) && AllAdmitted(cfg, run, calls) && k < |calls|
    ensures run[calls[k]].now - run[calls[0]].now >= k * cfg.minInterval
  {
    if k > 0 {
      SpreadUpTo(cfg, run, calls, k - 1);
      assert calls[k - 1] < calls[k];
      AdmittedGap(cfg, run, calls[k - 1], calls[k]);
      OneMore(k, cfg.minInterval);
    }
  }

  lemma OneMore(k: nat, x: int)
    requires k > 0
    ensures k * x == (k - 1) * x + x
  {
  }

  /** From a failure that reaches the threshold until its cooldown ends, no call
      is admitted unless a success is recorded in between. */
  lemma OpenUntilCooldown(cfg: Config, run: seq<Event>, j: nat, n: nat)
    requires Nondecreasing(run) && j < n < |run| && run[n].Ask? && Trips(cfg, run, j)
    requires run[n].now < run[j].now + cfg.cooldown
    requires forall i :: j < i < n ==> !run[i].Succeed?
    ensures VerdictAt(cfg, run, n) == CircuitOpen
  {
    GateRefinesRule(cfg, run, n);
    assert Tripped(cfg, run, j, n);
  }

  /** Once tripped, every further failure trips again until a success: a failed
      trial call after the cooldown reopens the breaker at once. */
  lemma {:induction false} FailedTrialReopens(cfg: Config, run: seq<Event>, j: nat, n: nat)
    requires j < n < |run| && Trips(cfg, run, j) && run[n].Fail?
    requires forall i :: j < i < n ==> !run[i].Succeed?
    ensures Trips(cfg, run, n)
  {
    FailuresGrow(run, j + 1, n);
  }

  lemma {:induction false} FailuresGrow(run: seq<Event>, a: nat, b: nat)
    requires a <= b <= |run| && forall i :: a <= i < b ==> !run[i].Succeed?
    ensures FailuresSince(run, a) <= FailuresSince(run, b)
  {
    if a < b { FailuresGrow(run, a, b - 1); }
  }
}
