/** Forwarding accepted webhooks: a bounded queue, two workers, and a timer per
    failed job that puts it back.  No cancellation. */
module WebhookJobs {
  import opened Int64

  const CAPACITY: nat := 1024
  const WORKERS: nat := 2

  // ---------------------------------------------------------------------- backoff

  function Pow2(n: nat): (p: nat)
    ensures p >= 1
  {
    if n == 0 then 1 else 2 * Pow2(n - 1)
  }

  /** The wait after a failed attempt: the base doubled each time, in 64 bits. */
  function Backoff(base: int, attempt: int): int {
    Wrap(base * Pow2(if attempt >= 1 then attempt - 1 else 0))
  }

  lemma WrapShift(x: int, k: int)
    ensures Wrap(x + k * SPAN) == Wrap(x)
  {
    var q := (x - MIN) / SPAN;
    assert x - MIN == q * SPAN + (x - MIN) % SPAN;
    assert x + k * SPAN - MIN == (q + k) * SPAN + (x - MIN) % SPAN;
  }

  lemma WrapDouble(x: int)
    ensures Wrap(Wrap(x) * 2) == Wrap(x * 2)
  {
    var q := (x - MIN) / SPAN;
    assert Wrap(x) == x - q * SPAN;
    assert Wrap(x) * 2 == x * 2 + (-2 * q) * SPAN;
    WrapShift(x * 2, -2 * q);
  }

  method BackoffForAttempt(base: int, attempt: int) returns (wait: int)
    requires Fits(base)
    ensures wait == Backoff(base, attempt)
    ensures attempt >= 1 ==> (wait == base * Pow2(attempt - 1) <==> Fits(base * Pow2(attempt - 1)))
  {
    wait := base;
    var i := 1;
    while i < attempt
      invariant 1 <= i && (i == 1 || i <= attempt)
      invariant wait == Wrap(base * Pow2(i - 1))
      decreases attempt - i
    {
      WrapDouble(base * Pow2(i - 1));
      assert base * Pow2(i) == base * Pow2(i - 1) * 2;
      wait := Wrap(wait * 2);
      i := i + 1;
    }
  }

  // ------------------------------------------------------------------ the machine

  datatype Config = Config(base: int, retries: int)

  /** A job as it travels; `attempt` counts the forwards that failed so far. */
  datatype Job = Job(key: nat, attempt: nat)

  datatype Worker = Waiting | Forwarding(job: Job) | Reporting(job: Job, ok: bool)

  datatype Timer = Timer(attempt: nat, due: int)

  datatype Entry = Accepted | Retrying(n: nat) | Forwarded(n: nat) | Failed(n: nat) | BufferFull

  /** `jobs` are the buffered jobs, `log` what was persisted for each delivery,
      `sent` the times at which each job was forwarded. */
  datatype State = State(
    now: int, queue: seq<Job>, workers: seq<Worker>, timers: map<nat, Timer>, done: map<nat, bool>,
    jobs: set<nat>, log: map<nat, seq<Entry>>, sent: map<nat, seq<int>>)

  datatype Action =
    | Submit(key: nat)
    | Take(w: nat)
    | Finish(w: nat, ok: bool)
    | Report(w: nat)
    | Requeue(key: nat)
    | Pass(until: int)

  predicate Enabled(s: State, a: Action) {
    match a
    case Submit(key) => key !in s.log && key !in s.jobs
    case Take(w) => w < |s.workers| && s.workers[w].Waiting? && s.queue != []
    case Finish(w, _) => w < |s.workers| && s.workers[w].Forwarding?
    case Report(w) => w < |s.workers| && s.workers[w].Reporting?
    case Requeue(key) => key in s.timers && s.timers[key].due <= s.now && |s.queue| < CAPACITY
    case Pass(until) => s.now <= until
  }

  function Persist(log: map<nat, seq<Entry>>, key: nat, e: Entry): map<nat, seq<Entry>> {
    if key in log then log[key := log[key] + [e]] else log[key := [e]]
  }

  function Sending(sent: map<nat, seq<int>>, key: nat, now: int): map<nat, seq<int>> {
    if key in sent then sent[key := sent[key] + [now]] else sent[key := [now]]
  }

  function Apply(cfg: Config, s: State, a: Action): State
    requires Enabled(s, a)
  {
    match a
    case Submit(key) =>
      var log := Persist(s.log, key, Accepted);
      if |s.queue| < CAPACITY
      then s.(log := log, queue := s.queue + [Job(key, 0)], jobs := s.jobs + {key}, sent := s.sent[key := []])
      else s.(log := Persist(log, key, BufferFull))
    case Take(w) =>
      var job := s.queue[0];
      s.(queue := s.queue[1..], workers := s.workers[w := Forwarding(job)], sent := Sending(s.sent, job.key, s.now))
    case Finish(w, ok) => s.(workers := s.workers[w := Reporting(s.workers[w].job, ok)])
    case Report(w) =>
      var job, ok := s.workers[w].job, s.workers[w].ok;
      var attempt := job.attempt + 1;
      var s' := s.(workers := s.workers[w := Waiting]);
      if ok then s'.(log := Persist(s.log, job.key, Forwarded(attempt)), done := s.done[job.key := true])
      else if attempt >= cfg.retries then
        s'.(log := Persist(s.log, job.key, Failed(attempt)), done := s.done[job.key := false])
      else s'.(log := Persist(s.log, job.key, Retrying(attempt)),
               timers := s.timers[job.key := Timer(attempt, s.now + Backoff(cfg.base, attempt))])
    case Requeue(key) => s.(queue := s.queue + [Job(key, s.timers[key].attempt)], timers := s.timers - {key})
    case Pass(until) => s.(now := until)
  }

  function Initial(now: int): State {
    State(now, [], [Waiting, Waiting], map[], map[], {}, map[], map[])
  }

  ghost predicate IsRun(cfg: Config, actions: seq<Action>, states: seq<State>) {
    && |states| == |actions| + 1
    && states[0] == Initial(states[0].now)
    && forall j :: 0 <= j < |actions| ==>
         Enabled(states[j], actions[j]) && states[j + 1] == Apply(cfg, states[j], actions[j])
  }

  // ------------------------------------------------------------- where a job is

  function InQueue(q: seq<Job>, k: nat): nat {
    if q == [] then 0 else (if q[0].key == k then 1 else 0) + InQueue(q[1..], k)
  }

  function InWorker(w: Worker, k: nat): nat {
    if !w.Waiting? && w.job.key == k then 1 else 0
  }

  function InTimer(s: State, k: nat): nat { if k in s.timers then 1 else 0 }

  function IsDone(s: State, k: nat): nat { if k in s.done then 1 else 0 }

  /** In how many places a job is found: queue, either worker, timer, finished. */
  function Places(s: State, k: nat): nat
    requires |s.workers| == WORKERS
  {
    InQueue(s.queue, k) + InWorker(s.workers[0], k) + InWorker(s.workers[1], k) + InTimer(s, k) + IsDone(s, k)
  }

  /** A buffered job is in exactly one place, and only buffered jobs are anywhere. */
  ghost predicate Placed(s: State) {
    && |s.workers| == WORKERS && |s.queue| <= CAPACITY
    && forall k: nat :: PlacedOnce(s, k)
  }

  lemma {:induction false} InQueueSnoc(q: seq<Job>, j: Job, k: nat)
    ensures InQueue(q + [j], k) == InQueue(q, k) + if j.key == k then 1 else 0
  {
    if q == [] {
      assert ([] + [j])[1..] == [];
    } else {
      InQueueSnoc(q[1..], j, k);
      assert (q + [j])[1..] == q[1..] + [j];
    }
  }

  ghost predicate PlacedOnce(s: State, k: nat) {
    |s.workers| == WORKERS && Places(s, k) == if k in s.jobs then 1 else 0
  }

  lemma PlacesSubmit(cfg: Config, s: State, a: Action, k: nat)
    requires a.Submit? && Enabled(s, a) && PlacedOnce(s, k)
    ensures PlacedOnce(Apply(cfg, s, a), k)
  {
    InQueueSnoc(s.queue, Job(a.key, 0), k);
  }

  lemma PlacesRequeue(cfg: Config, s: State, a: Action, k: nat)
    requires a.Requeue? && Enabled(s, a) && PlacedOnce(s, k)
    ensures PlacedOnce(Apply(cfg, s, a), k)
  {
    InQueueSnoc(s.queue, Job(a.key, s.timers[a.key].attempt), k);
  }

  lemma PlacesTake(cfg: Config, s: State, a: Action, k: nat)
    requires (a.Take? || a.Finish?) && Enabled(s, a) && PlacedOnce(s, k)
    ensures PlacedOnce(Apply(cfg, s, a), k)
  {
    SameWorkers(s.workers, a.w, Apply(cfg, s, a).workers, k);
  }

  /** A reporting worker hands its job on: to a timer or to the finished ones. */
  lemma PlacesHandOver(s: State, s': State, w: nat, k: nat)
    requires w < |s.workers| && s.workers[w].Reporting? && PlacedOnce(s, k)
    requires s'.workers == s.workers[w := Waiting] && s'.queue == s.queue && s'.jobs == s.jobs
    requires
      var key := s.workers[w].job.key;
      || (s'.timers == s.timers && s'.done.Keys == s.done.Keys + {key})
      || (s'.done == s.done && s'.timers.Keys == s.timers.Keys + {key})
    ensures PlacedOnce(s', k)
  {
    SameWorkers(s.workers, w, s'.workers, k);
  }

  lemma PlacesStep(cfg: Config, s: State, a: Action, k: nat)
    requires Enabled(s, a) && PlacedOnce(s, k)
    ensures PlacedOnce(Apply(cfg, s, a), k)
  {
    match a
    case Submit(_) => PlacesSubmit(cfg, s, a, k);
    case Requeue(_) => PlacesRequeue(cfg, s, a, k);
    case Take(_) => PlacesTake(cfg, s, a, k);
    case Finish(_, _) => PlacesTake(cfg, s, a, k);
    case Report(w) => PlacesHandOver(s, Apply(cfg, s, a), w, k);
    case Pass(_) =>
  }

  lemma SameWorkers(ws: seq<Worker>, w: nat, ws': seq<Worker>, k: nat)
    requires |ws| == WORKERS && w < |ws| && |ws'| == |ws| && ws' == ws[w := ws'[w]]
    ensures InWorker(ws'[0], k) + InWorker(ws'[1], k) - InWorker(ws'[w], k)
         == InWorker(ws[0], k) + InWorker(ws[1], k) - InWorker(ws[w], k)
  {
  }

  lemma PlacedStep(cfg: Config, s: State, a: Action)
    requires Placed(s) && Enabled(s, a)
    ensures Placed(Apply(cfg, s, a))
  {
    var s' := Apply(cfg, s, a);
    forall k: nat ensures PlacedOnce(s', k) {
      assert PlacedOnce(s, k);
      PlacesStep(cfg, s, a, k);
    }
    assert PlacedOnce(s', 0);
  }

  // --------------------------------------------------------------- what it carries

  /** Never fewer than one forward, whatever the configured number. */
  function MaxSends(cfg: Config): nat {
    if cfg.retries < 1 then 1 else cfg.retries
  }

  /** What has been persisted for a job with `n` failed attempts. */
  function History(n: nat): seq<Entry> {
    if n == 0 then [Accepted] else History(n - 1) + [Retrying(n)]
  }

  /** Each forward comes at least the backoff after the one before. */
  ghost predicate Spaced(base: int, times: seq<int>) {
    forall i :: 0 < i < |times| ==> times[i - 1] + Backoff(base, i) <= times[i]
  }

  /** A job with `n` failed attempts behind it, waiting until `ready` at least. */
  ghost predicate Between(cfg: Config, n: nat, log: seq<Entry>, times: seq<int>, ready: int) {
    && log == History(n) && |times| == n && n < MaxSends(cfg) && Spaced(cfg.base, times)
    && (n > 0 ==> times[n - 1] + Backoff(cfg.base, n) <= ready)
  }

  /** A job whose attempt after `n` failures has been sent by `now`. */
  ghost predicate Sent(cfg: Config, n: nat, log: seq<Entry>, times: seq<int>, now: int) {
    && log == History(n) && |times| == n + 1 && n < MaxSends(cfg) && Spaced(cfg.base, times) && times[n] <= now
  }

  ghost predicate Finished(cfg: Config, ok: bool, log: seq<Entry>, times: seq<int>) {
    && 1 <= |times| <= MaxSends(cfg) && Spaced(cfg.base, times)
    && log == History(|times| - 1) + [if ok then Forwarded(|times|) else Failed(|times|)]
    && (!ok ==> |times| == MaxSends(cfg))
  }

  ghost predicate Tracked(s: State, k: nat) {
    k in s.log && k in s.sent
  }

  /** Wherever job `k` is, it carries what that place requires. */
  ghost predicate KeyInv(cfg: Config, s: State, k: nat) {
    && (forall j :: j in s.queue && j.key == k ==> Tracked(s, k) && Between(cfg, j.attempt, s.log[k], s.sent[k], s.now))
    && (forall w :: w in s.workers && !w.Waiting? && w.job.key == k ==>
          Tracked(s, k) && Sent(cfg, w.job.attempt, s.log[k], s.sent[k], s.now))
    && (k in s.timers ==>
          Tracked(s, k) && s.timers[k].attempt > 0 &&
            Between(cfg, s.timers[k].attempt, s.log[k], s.sent[k], s.timers[k].due))
    && (k in s.done ==> Tracked(s, k) && Finished(cfg, s.done[k], s.log[k], s.sent[k]))
  }

  ghost predicate Inv(cfg: Config, s: State) {
    && Placed(s)
    && (forall k: nat :: KeyInv(cfg, s, k))
    && (forall k :: k in s.jobs ==> k in s.log)
  }

  lemma {:induction false} NotInQueue(q: seq<Job>, k: nat)
    requires InQueue(q, k) == 0
    ensures forall j :: j in q ==> j.key != k
  {
    if q != [] {
      NotInQueue(q[1..], k);
      assert q == [q[0]] + q[1..];
    }
  }

  /** Job `k` is untouched: same record, found only where it was. */
  lemma Untouched(cfg: Config, s: State, s': State, k: nat)
    requires KeyInv(cfg, s, k) && s.now <= s'.now
    requires Tracked(s, k) ==> Tracked(s', k) && s'.log[k] == s.log[k] && s'.sent[k] == s.sent[k]
    requires forall j :: j in s'.queue && j.key == k ==> j in s.queue
    requires forall w :: w in s'.workers && !w.Waiting? && w.job.key == k ==>
               exists v :: v in s.workers && !v.Waiting? && v.job == w.job
    requires k in s'.timers ==> k in s.timers && s'.timers[k] == s.timers[k]
    requires k in s'.done ==> k in s.done && s'.done[k] == s.done[k]
    ensures KeyInv(cfg, s', k)
  {
    forall w | w in s'.workers && !w.Waiting? && w.job.key == k
      ensures Tracked(s', k) && Sent(cfg, w.job.attempt, s'.log[k], s'.sent[k], s'.now)
    {
      var v :| v in s.workers && !v.Waiting? && v.job == w.job;
    }
  }

  lemma SubmitInv(cfg: Config, s: State, a: Action)
    requires a.Submit? && Enabled(s, a) && Placed(s) && KeyInv(cfg, s, a.key)
    ensures KeyInv(cfg, Apply(cfg, s, a), a.key)
  {
    var k := a.key;
    assert PlacedOnce(s, k);
    NotInQueue(s.queue, k);
    assert forall w :: w in s.workers ==> w == s.workers[0] || w == s.workers[1];
    assert History(0) == [Accepted];
  }

  lemma WorkersAfter(ws: seq<Worker>, w: nat, x: Worker, k: nat)
    requires |ws| == WORKERS && w < |ws| && InWorker(ws[0], k) + InWorker(ws[1], k) == InWorker(ws[w], k)
    ensures forall v :: v in ws[w := x] && !v.Waiting? && v.job.key == k ==> v == x
  {
    forall v | v in ws[w := x] && !v.Waiting? && v.job.key == k ensures v == x {
      assert v == ws[w := x][0] || v == ws[w := x][1];
    }
  }

  lemma TakeInv(cfg: Config, s: State, a: Action)
    requires a.Take? && Enabled(s, a) && Placed(s) && KeyInv(cfg, s, s.queue[0].key)
    ensures KeyInv(cfg, Apply(cfg, s, a), s.queue[0].key)
  {
    var job := s.queue[0];
    var k := job.key;
    assert PlacedOnce(s, k) && InQueue(s.queue, k) >= 1;
    NotInQueue(s.queue[1..], k);
    WorkersAfter(s.workers, a.w, Forwarding(job), k);
    assert job in s.queue;
  }

  lemma FinishInv(cfg: Config, s: State, a: Action)
    requires a.Finish? && Enabled(s, a) && Placed(s) && KeyInv(cfg, s, s.workers[a.w].job.key)
    ensures KeyInv(cfg, Apply(cfg, s, a), s.workers[a.w].job.key)
  {
    var w := s.workers[a.w];
    assert PlacedOnce(s, w.job.key) && w in s.workers;
    WorkersAfter(s.workers, a.w, Reporting(w.job, a.ok), w.job.key);
  }

  lemma ReportInv(cfg: Config, s: State, a: Action)
    requires a.Report? && Enabled(s, a) && Placed(s) && KeyInv(cfg, s, s.workers[a.w].job.key)
    ensures KeyInv(cfg, Apply(cfg, s, a), s.workers[a.w].job.key)
  {
    var w := s.workers[a.w];
    var k, n := w.job.key, w.job.attempt;
    assert PlacedOnce(s, k) && w in s.workers;
    NotInQueue(s.queue, k);
    WorkersAfter(s.workers, a.w, Waiting, k);
    assert Sent(cfg, n, s.log[k], s.sent[k], s.now);
    assert History(n + 1) == History(n) + [Retrying(n + 1)];
  }

  lemma RequeueInv(cfg: Config, s: State, a: Action)
    requires a.Requeue? && Enabled(s, a) && Placed(s) && KeyInv(cfg, s, a.key)
    ensures KeyInv(cfg, Apply(cfg, s, a), a.key)
  {
    var k := a.key;
    assert PlacedOnce(s, k);
    NotInQueue(s.queue, k);
    assert forall w :: w in s.workers ==> w == s.workers[0] || w == s.workers[1];
  }

  /** The job an action is about. */
  ghost predicate Concerns(s: State, a: Action, k: nat)
    requires Enabled(s, a)
  {
    match a
    case Submit(key) => key == k
    case Take(_) => s.queue[0].key == k
    case Finish(w, _) => s.workers[w].job.key == k
    case Report(w) => s.workers[w].job.key == k
    case Requeue(key) => key == k
    case Pass(_) => false
  }

  lemma OtherJob(cfg: Config, s: State, a: Action, k: nat)
    requires Enabled(s, a) && KeyInv(cfg, s, k) && !Concerns(s, a, k)
    ensures KeyInv(cfg, Apply(cfg, s, a), k)
  {
    Untouched(cfg, s, Apply(cfg, s, a), k);
  }

  lemma StepInv(cfg: Config, s: State, a: Action)
    requires Inv(cfg, s) && Enabled(s, a)
    ensures Inv(cfg, Apply(cfg, s, a))
  {
    var s' := Apply(cfg, s, a);
    PlacedStep(cfg, s, a);
    forall k: nat ensures KeyInv(cfg, s', k) {
      assert KeyInv(cfg, s, k);
      if !Concerns(s, a, k) { OtherJob(cfg, s, a, k); }
      else {
        match a
        case Submit(_) => SubmitInv(cfg, s, a);
        case Take(_) => TakeInv(cfg, s, a);
        case Finish(_, _) => FinishInv(cfg, s, a);
        case Report(_) => ReportInv(cfg, s, a);
        case Requeue(_) => RequeueInv(cfg, s, a);
      }
    }
  }

  lemma InitialInv(cfg: Config, now: int)
    ensures Inv(cfg, Initial(now))
  {
    assert forall k: nat :: PlacedOnce(Initial(now), k);
  }

  lemma {:induction false} RunInv(cfg: Config, actions: seq<Action>, states: seq<State>, n: nat)
    requires IsRun(cfg, actions, states) && n <= |actions|
    ensures Inv(cfg, states[n])
  {
    if n == 0 {
      InitialInv(cfg, states[0].now);
    } else {
      RunInv(cfg, actions, states, n - 1);
      StepInv(cfg, states[n - 1], actions[n - 1]);
      assert states[n] == Apply(cfg, states[n - 1], actions[n - 1]);
    }
  }

  // -------------------------------------------------------------------- theorems

  lemma {:induction false} QueuedMember(q: seq<Job>, k: nat) returns (j: Job)
    requires InQueue(q, k) > 0
    ensures j in q && j.key == k
  {
    if q[0].key == k { j := q[0]; } else { j := QueuedMember(q[1..], k); }
  }

  lemma UnfinishedHistory(cfg: Config, s: State, k: nat) returns (m: nat)
    requires Inv(cfg, s) && k in s.jobs && k !in s.done
    ensures Tracked(s, k) && s.log[k] == History(m) && m <= |s.sent[k]| <= m + 1 && m < MaxSends(cfg)
    ensures Spaced(cfg.base, s.sent[k])
  {
    assert PlacedOnce(s, k) && KeyInv(cfg, s, k);
    if InQueue(s.queue, k) > 0 {
      var j := QueuedMember(s.queue, k);
      m := j.attempt;
    } else if k in s.timers {
      m := s.timers[k].attempt;
    } else {
      var w := if InWorker(s.workers[0], k) > 0 then s.workers[0] else s.workers[1];
      assert w in s.workers && !w.Waiting? && w.job.key == k;
      m := w.job.attempt;
    }
  }

  lemma SentAtMost(cfg: Config, s: State, k: nat)
    requires Inv(cfg, s) && k in s.jobs
    ensures k in s.sent && |s.sent[k]| <= MaxSends(cfg)
  {
    assert PlacedOnce(s, k) && KeyInv(cfg, s, k);
    if k !in s.done { var m := UnfinishedHistory(cfg, s, k); }
  }

  /** In every interleaving of submissions, workers and timers, a buffered job is
      in exactly one place; it has been forwarded at most `MaxSends` times, each
      time at least the backoff after the time before; and its record reads
      accepted, retrying 1, 2, ..., then, once finished, forwarded or failed
      with the number of forwards, failed only after all of them. */
  lemma JobLife(cfg: Config, actions: seq<Action>, states: seq<State>, n: nat, k: nat) returns (m: nat)
    requires IsRun(cfg, actions, states) && n <= |actions| && k in states[n].jobs
    ensures
      var s := states[n];
      && |s.workers| == WORKERS && Places(s, k) == 1
      && Tracked(s, k) && |s.sent[k]| <= MaxSends(cfg) && Spaced(cfg.base, s.sent[k])
      && (k !in s.done ==> s.log[k] == History(m) && m <= |s.sent[k]| <= m + 1)
      && (k in s.done ==>
            && |s.sent[k]| == m + 1
            && s.log[k] == History(m) + [if s.done[k] then Forwarded(m + 1) else Failed(m + 1)]
            && (!s.done[k] ==> m + 1 == MaxSends(cfg)))
  {
    RunInv(cfg, actions, states, n);
    var s := states[n];
    assert PlacedOnce(s, k) && KeyInv(cfg, s, k);
    if k in s.done { m := |s.sent[k]| - 1; } else { m := UnfinishedHistory(cfg, s, k); }
  }

  /** A job is forwarded once before the number of retries is looked at. */
  lemma FirstForward(cfg: Config, now: int) returns (actions: seq<Action>, states: seq<State>)
    ensures IsRun(cfg, actions, states) && |actions| == 2
    ensures 0 in states[2].jobs && 0 in states[2].sent && |states[2].sent[0]| == 1
  {
    actions := [Submit(0), Take(0)];
    var s0 := Initial(now);
    var s1 := Apply(cfg, s0, actions[0]);
    assert s1.queue == [Job(0, 0)];
    states := [s0, s1, Apply(cfg, s1, actions[1])];
  }

  /** In this state every job has been forwarded at most as often as configured. */
  ghost predicate WithinRetries(cfg: Config, s: State) {
    forall k :: k in s.jobs ==> k in s.sent && |s.sent[k]| <= cfg.retries
  }

  lemma RunWithinRetries(cfg: Config, actions: seq<Action>, states: seq<State>)
    requires cfg.retries >= 1 && IsRun(cfg, actions, states)
    ensures WithinRetries(cfg, states[|actions|])
  {
    var s := states[|actions|];
    forall k | k in s.jobs ensures k in s.sent && |s.sent[k]| <= cfg.retries {
      var m := JobLife(cfg, actions, states, |actions|, k);
    }
  }

  /** Over all runs no job is forwarded more often than configured if and only if
      the configured number is at least one. */
  lemma WithinRetriesIff(cfg: Config)
    ensures cfg.retries >= 1 <==>
            forall actions, states :: IsRun(cfg, actions, states) ==> WithinRetries(cfg, states[|actions|])
  {
    if cfg.retries >= 1 {
      forall actions, states | IsRun(cfg, actions, states) ensures WithinRetries(cfg, states[|actions|]) {
        RunWithinRetries(cfg, actions, states);
      }
    } else {
      var actions, states := FirstForward(cfg, 0);
      assert !WithinRetries(cfg, states[|actions|]);
    }
  }

  // -------------------------------------------------------------------- progress

  /** Steps of the workers and timers. */
  predicate IsWork(a: Action) {
    a.Take? || a.Finish? || a.Report? || a.Requeue?
  }

  /** A queued job always has a worker to turn to: one is free, or one is busy and
      can go on. */
  lemma WorkersCanStep(s: State) returns (a: Action)
    requires |s.workers| == WORKERS && (s.queue != [] || exists w :: w in s.workers && !w.Waiting?)
    ensures IsWork(a) && Enabled(s, a)
  {
    match s.workers[0]
    case Forwarding(_) => a := Finish(0, true);
    case Reporting(_, _) => a := Report(0);
    case Waiting =>
      match s.workers[1]
      case Forwarding(_) => a := Finish(1, true);
      case Reporting(_, _) => a := Report(1);
      case Waiting =>
        assert forall w :: w in s.workers ==> w == s.workers[0] || w == s.workers[1];
        a := Take(0);
  }

  /** Nothing gets stuck: in every reachable state with an unfinished job some
      worker or timer step is possible, at once or after time `t` has come.  A full
      queue holds up the timers only while a worker can step. */
  lemma NeverStuck(cfg: Config, actions: seq<Action>, states: seq<State>, n: nat, k: nat) returns (t: int, a: Action)
    requires IsRun(cfg, actions, states) && n <= |actions| && k in states[n].jobs && k !in states[n].done
    ensures t >= states[n].now && IsWork(a) && Enabled(states[n].(now := t), a)
  {
    RunInv(cfg, actions, states, n);
    var s := states[n];
    assert PlacedOnce(s, k);
    t := s.now;
    if k in s.timers && s.queue == [] {
      if t < s.timers[k].due { t := s.timers[k].due; }
      a := Requeue(k);
    } else {
      if s.queue == [] && InWorker(s.workers[0], k) == 0 { assert s.workers[1] in s.workers; }
      if s.queue == [] && InWorker(s.workers[0], k) > 0 { assert s.workers[0] in s.workers; }
      a := WorkersCanStep(s);
    }
  }

  // ------------------------------------------------------------------------- ends

  /** Job `k` is finished in both states, with the same end, record and forwards. */
  ghost predicate SameEnd(s: State, s': State, k: nat) {
    && k in s.done && Tracked(s, k) && k in s'.done && Tracked(s', k)
    && s'.done[k] == s.done[k] && s'.log[k] == s.log[k] && s'.sent[k] == s.sent[k]
  }

  lemma DoneStep(cfg: Config, s: State, a: Action, k: nat)
    requires Inv(cfg, s) && Enabled(s, a) && k in s.done
    ensures SameEnd(s, Apply(cfg, s, a), k)
  {
    assert PlacedOnce(s, k) && KeyInv(cfg, s, k);
    assert InQueue(s.queue, k) == 0 && InWorker(s.workers[0], k) == 0 && InWorker(s.workers[1], k) == 0;
    assert !Concerns(s, a, k);
  }

  lemma DoneNow(cfg: Config, actions: seq<Action>, states: seq<State>, n: nat, k: nat)
    requires IsRun(cfg, actions, states) && n <= |actions| && k in states[n].done
    ensures SameEnd(states[n], states[n], k)
  {
    RunInv(cfg, actions, states, n);
    assert KeyInv(cfg, states[n], k);
  }

  lemma DoneNext(cfg: Config, actions: seq<Action>, states: seq<State>, n: nat, k: nat)
    requires IsRun(cfg, actions, states) && n < |actions| && k in states[n].done
    ensures SameEnd(states[n], states[n + 1], k)
  {
    RunInv(cfg, actions, states, n);
    DoneStep(cfg, states[n], actions[n], k);
  }

  /** A finished job stays finished: nothing more is sent or persisted for it. */
  lemma {:induction false} DoneIsFinal(cfg: Config, actions: seq<Action>, states: seq<State>, i: nat, n: nat, k: nat)
    requires IsRun(cfg, actions, states) && i <= n <= |actions| && k in states[i].done
    ensures SameEnd(states[i], states[n], k)
  {
    if i == n {
      DoneNow(cfg, actions, states, i, k);
    } else {
      DoneIsFinal(cfg, actions, states, i, n - 1, k);
      DoneNext(cfg, actions, states, n - 1, k);
    }
  }
}
