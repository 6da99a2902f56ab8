/** What becomes of a webhook job, by the outcomes of its forwards. */
module WebhookOutcomes {
  import opened Int64
  import opened WebhookJobs

  /** The action ends a forward of job `k`. */
  predicate Ends(s: State, a: Action, k: nat) {
    a.Finish? && a.w < |s.workers| && s.workers[a.w].Forwarding? && s.workers[a.w].job.key == k
  }

  /** The outcomes of job `k`'s forwards in the first `n` steps, in order. */
  function Outcomes(actions: seq<Action>, states: seq<State>, n: nat, k: nat): seq<bool>
    requires n <= |actions| < |states|
  {
    if n == 0 then []
    else
      Outcomes(actions, states, n - 1, k) +
      if Ends(states[n - 1], actions[n - 1], k) then [actions[n - 1].ok] else []
  }

  ghost predicate AllFalse(f: seq<bool>) {
    forall i :: 0 <= i < |f| ==> !f[i]
  }

  /** Wherever job `k` is, these are the outcomes it must have had. */
  ghost predicate OutcomeInv(s: State, k: nat, f: seq<bool>) {
    && (forall j :: j in s.queue && j.key == k ==> |f| == j.attempt && AllFalse(f))
    && (forall w :: w in s.workers && w.Forwarding? && w.job.key == k ==> |f| == w.job.attempt && AllFalse(f))
    && (forall w :: w in s.workers && w.Reporting? && w.job.key == k ==>
          |f| == w.job.attempt + 1 && AllFalse(f[..w.job.attempt]) && f[w.job.attempt] == w.ok)
    && (k in s.timers ==> |f| == s.timers[k].attempt && AllFalse(f))
    && (k in s.done ==> f != [] && AllFalse(f[..|f| - 1]) && f[|f| - 1] == s.done[k])
    && (k !in s.jobs ==> f == [])
  }

  function After(s: State, a: Action, k: nat, f: seq<bool>): seq<bool> {
    f + if Ends(s, a, k) then [a.ok] else []
  }

  lemma OtherOutcome(cfg: Config, s: State, a: Action, k: nat, f: seq<bool>)
    requires Enabled(s, a) && |s.workers| == WORKERS && OutcomeInv(s, k, f) && !Concerns(s, a, k)
    ensures After(s, a, k, f) == f && OutcomeInv(Apply(cfg, s, a), k, f)
  {
    var s' := Apply(cfg, s, a);
    forall w | w in s'.workers && !w.Waiting? && w.job.key == k ensures w in s.workers {
      if a.Take? || a.Finish? || a.Report? { assert w in s.workers[a.w := s'.workers[a.w]]; }
    }
  }

  lemma SubmitOutcome(cfg: Config, s: State, k: nat, f: seq<bool>)
    requires Placed(s) && Enabled(s, Submit(k)) && OutcomeInv(s, k, f)
    ensures OutcomeInv(Apply(cfg, s, Submit(k)), k, f)
  {
    assert PlacedOnce(s, k);
    NotInQueue(s.queue, k);
    assert forall w :: w in s.workers ==> w == s.workers[0] || w == s.workers[1];
  }

  lemma TakeOutcome(cfg: Config, s: State, a: Action, k: nat, f: seq<bool>)
    requires a.Take? && Placed(s) && Enabled(s, a) && OutcomeInv(s, k, f) && s.queue[0].key == k
    ensures OutcomeInv(Apply(cfg, s, a), k, f)
  {
    var job := s.queue[0];
    assert PlacedOnce(s, k) && InQueue(s.queue, k) >= 1;
    NotInQueue(s.queue[1..], k);
    WorkersAfter(s.workers, a.w, Forwarding(job), k);
    assert job in s.queue;
  }

  lemma FinishOutcome(cfg: Config, s: State, a: Action, k: nat, f: seq<bool>)
    requires a.Finish? && Placed(s) && Enabled(s, a) && OutcomeInv(s, k, f) && s.workers[a.w].job.key == k
    ensures OutcomeInv(Apply(cfg, s, a), k, f + [a.ok])
  {
    var w := s.workers[a.w];
    assert PlacedOnce(s, k) && w in s.workers;
    NotInQueue(s.queue, k);
    WorkersAfter(s.workers, a.w, Reporting(w.job, a.ok), k);
    assert (f + [a.ok])[..|f|] == f;
  }

  lemma ReportOutcome(cfg: Config, s: State, a: Action, k: nat, f: seq<bool>)
    requires a.Report? && Placed(s) && Enabled(s, a) && OutcomeInv(s, k, f) && s.workers[a.w].job.key == k
    ensures OutcomeInv(Apply(cfg, s, a), k, f)
  {
    var w := s.workers[a.w];
    assert PlacedOnce(s, k) && w in s.workers;
    NotInQueue(s.queue, k);
    WorkersAfter(s.workers, a.w, Waiting, k);
    assert f == f[..w.job.attempt] + [f[w.job.attempt]];
  }

  lemma RequeueOutcome(cfg: Config, s: State, k: nat, f: seq<bool>)
    requires Placed(s) && Enabled(s, Requeue(k)) && OutcomeInv(s, k, f)
    ensures OutcomeInv(Apply(cfg, s, Requeue(k)), k, f)
  {
    assert PlacedOnce(s, k);
    NotInQueue(s.queue, k);
    assert forall w :: w in s.workers ==> w == s.workers[0] || w == s.workers[1];
  }

  lemma StepOutcome(cfg: Config, s: State, a: Action, k: nat, f: seq<bool>)
    requires Placed(s) && Enabled(s, a) && OutcomeInv(s, k, f)
    ensures OutcomeInv(Apply(cfg, s, a), k, After(s, a, k, f))
  {
    if !Concerns(s, a, k) {
      OtherOutcome(cfg, s, a, k, f);
    } else {
      assert !a.Finish? ==> After(s, a, k, f) == f;
      match a
      case Submit(_) => SubmitOutcome(cfg, s, k, f);
      case Take(_) => TakeOutcome(cfg, s, a, k, f);
      case Finish(_, _) => FinishOutcome(cfg, s, a, k, f);
      case Report(_) => ReportOutcome(cfg, s, a, k, f);
      case Requeue(_) => RequeueOutcome(cfg, s, k, f);
    }
  }

  lemma {:induction false} RunOutcome(cfg: Config, actions: seq<Action>, states: seq<State>, n: nat, k: nat)
    requires IsRun(cfg, actions, states) && n <= |actions|
    ensures OutcomeInv(states[n], k, Outcomes(actions, states, n, k))
  {
    if n > 0 {
      RunOutcome(cfg, actions, states, n - 1, k);
      RunInv(cfg, actions, states, n - 1);
      StepOutcome(cfg, states[n - 1], actions[n - 1], k, Outcomes(actions, states, n - 1, k));
      assert states[n] == Apply(cfg, states[n - 1], actions[n - 1]);
    }
  }

  /** A worker has the last outcome of job `k` and has not acted on it yet. */
  ghost predicate Unreported(s: State, k: nat) {
    exists w :: w in s.workers && w.Reporting? && w.job.key == k
  }

  /** The outcomes that have been acted on. */
  ghost function Reported(s: State, k: nat, f: seq<bool>): seq<bool> {
    if Unreported(s, k) && f != [] then f[..|f| - 1] else f
  }

  /** A job that is not finished has only failures behind it, fewer than allowed. */
  lemma UnfinishedOutcome(cfg: Config, s: State, k: nat, f: seq<bool>)
    requires Inv(cfg, s) && OutcomeInv(s, k, f) && k in s.jobs && k !in s.done
    ensures AllFalse(Reported(s, k, f)) && |Reported(s, k, f)| < MaxSends(cfg)
    ensures k in s.sent && |f| <= |s.sent[k]| <= |f| + 1 && (Unreported(s, k) ==> f != [] && |s.sent[k]| == |f|)
    ensures !Unreported(s, k) ==> AllFalse(f)
  {
    assert PlacedOnce(s, k) && KeyInv(cfg, s, k);
    assert forall w :: w in s.workers ==> w == s.workers[0] || w == s.workers[1];
    if InQueue(s.queue, k) > 0 {
      var j := QueuedMember(s.queue, k);
      assert !Unreported(s, k);
    } else if k in s.timers {
      assert !Unreported(s, k);
    } else {
      var w := if InWorker(s.workers[0], k) > 0 then s.workers[0] else s.workers[1];
      assert w in s.workers && !w.Waiting? && w.job.key == k;
      UnfinishedInWorker(cfg, s, k, f, w);
    }
  }

  lemma UnfinishedInWorker(cfg: Config, s: State, k: nat, f: seq<bool>, w: Worker)
    requires Inv(cfg, s) && OutcomeInv(s, k, f) && w in s.workers && !w.Waiting? && w.job.key == k
    requires InWorker(s.workers[0], k) + InWorker(s.workers[1], k) == 1
    ensures Unreported(s, k) <==> w.Reporting?
    ensures AllFalse(Reported(s, k, f)) && |Reported(s, k, f)| == w.job.attempt < MaxSends(cfg)
    ensures k in s.sent && |s.sent[k]| == w.job.attempt + 1 && |f| == w.job.attempt + if w.Reporting? then 1 else 0
    ensures !w.Reporting? ==> AllFalse(f)
  {
    assert KeyInv(cfg, s, k);
    assert forall v :: v in s.workers ==> v == s.workers[0] || v == s.workers[1];
    if Unreported(s, k) {
      var v :| v in s.workers && v.Reporting? && v.job.key == k;
      assert v == w;
    }
  }

  /** The outcomes decide what becomes of the job: all but the last are failures;
      it is finished as forwarded if and only if the last one acted on is a
      success, and as failed if and only if as many as allowed were failures;
      nothing is sent after a success. */
  ghost predicate Decided(cfg: Config, s: State, k: nat, f: seq<bool>) {
    var reported := Reported(s, k, f);
    && (f != [] ==> AllFalse(f[..|f| - 1]))
    && (k in s.done && s.done[k] <==> reported != [] && reported[|reported| - 1])
    && (k in s.done && !s.done[k] <==> |reported| == MaxSends(cfg) && AllFalse(reported))
    && k in s.sent && |f| <= |s.sent[k]| <= |f| + 1 && (true in f ==> |s.sent[k]| == |f|)
  }

  lemma DecidedUnfinished(cfg: Config, s: State, k: nat, f: seq<bool>)
    requires Inv(cfg, s) && OutcomeInv(s, k, f) && k in s.jobs && k !in s.done
    ensures Decided(cfg, s, k, f)
  {
    UnfinishedOutcome(cfg, s, k, f);
    if f != [] { assert f == f[..|f| - 1] + [f[|f| - 1]]; }
  }

  lemma DecidedFinished(cfg: Config, s: State, k: nat, f: seq<bool>)
    requires OutcomeInv(s, k, f) && k in s.done && !Unreported(s, k) && k in s.sent && |s.sent[k]| == |f|
    requires !s.done[k] ==> |f| == MaxSends(cfg)
    ensures Decided(cfg, s, k, f)
  {
    assert f == f[..|f| - 1] + [f[|f| - 1]];
  }

  /** In every run the outcomes of its forwards decide what becomes of a job. */
  lemma OutcomesDecide(cfg: Config, actions: seq<Action>, states: seq<State>, n: nat, k: nat)
    requires IsRun(cfg, actions, states) && n <= |actions| && k in states[n].jobs
    ensures Decided(cfg, states[n], k, Outcomes(actions, states, n, k))
  {
    RunInv(cfg, actions, states, n);
    RunOutcome(cfg, actions, states, n, k);
    if k in states[n].done {
      FinishedOutcome(cfg, actions, states, n, k);
      DecidedFinished(cfg, states[n], k, Outcomes(actions, states, n, k));
    } else {
      DecidedUnfinished(cfg, states[n], k, Outcomes(actions, states, n, k));
    }
  }

  lemma FinishedOutcome(cfg: Config, actions: seq<Action>, states: seq<State>, n: nat, k: nat)
    requires IsRun(cfg, actions, states) && n <= |actions| && k in states[n].done
    ensures
      var s, f := states[n], Outcomes(actions, states, n, k);
      && !Unreported(s, k) && f != [] && k in s.sent && |s.sent[k]| == |f|
      && (!s.done[k] ==> |f| == MaxSends(cfg))
  {
    RunInv(cfg, actions, states, n);
    FinishedPlace(cfg, states[n], k);
    SentWhenDone(cfg, actions, states, n, k);
  }

  lemma FinishedPlace(cfg: Config, s: State, k: nat)
    requires Inv(cfg, s) && k in s.done
    ensures !Unreported(s, k) && k in s.sent && |s.sent[k]| >= 1
    ensures !s.done[k] ==> |s.sent[k]| == MaxSends(cfg)
  {
    assert PlacedOnce(s, k) && KeyInv(cfg, s, k);
    assert forall w :: w in s.workers ==> w == s.workers[0] || w == s.workers[1];
  }

  lemma {:induction false} SentWhenDone(cfg: Config, actions: seq<Action>, states: seq<State>, n: nat, k: nat)
    requires IsRun(cfg, actions, states) && n <= |actions| && k in states[n].done
    ensures k in states[n].sent && |states[n].sent[k]| == |Outcomes(actions, states, n, k)|
  {
    var s, a := states[n - 1], actions[n - 1];
    assert states[n] == Apply(cfg, s, a) && Enabled(s, a);
    RunInv(cfg, actions, states, n - 1);
    RunOutcome(cfg, actions, states, n - 1, k);
    assert PlacedOnce(s, k) && KeyInv(cfg, s, k);
    if k in s.done {
      SentWhenDone(cfg, actions, states, n - 1, k);
      DoneStep(cfg, s, a, k);
      assert !Ends(s, a, k) by { assert InWorker(s.workers[0], k) == 0 && InWorker(s.workers[1], k) == 0; }
    } else {
      assert a.Report? && s.workers[a.w].job.key == k && s.workers[a.w] in s.workers;
    }
  }

  lemma RunPlaced(cfg: Config, actions: seq<Action>, states: seq<State>, n: nat)
    requires IsRun(cfg, actions, states) && n <= |actions|
    ensures Placed(states[n])
  {
    RunInv(cfg, actions, states, n);
  }

  /** Step `a` reports the failure of job `k`. */
  predicate ReportsFailure(s: State, a: Action, k: nat) {
    a.Report? && a.w < |s.workers| && s.workers[a.w].Reporting? && s.workers[a.w].job.key == k && !s.workers[a.w].ok
  }

  /** The base, doubled for every failure but the first, after the report. */
  predicate DueAfter(cfg: Config, reportedAt: int, failures: nat, due: int) {
    failures >= 1 && due == reportedAt + Wrap(cfg.base * Pow2(failures - 1))
  }

  lemma TimerStarts(cfg: Config, s: State, a: Action, k: nat, f: seq<bool>)
    requires Placed(s) && Enabled(s, a) && OutcomeInv(s, k, f) && k !in s.timers && k in Apply(cfg, s, a).timers
    ensures ReportsFailure(s, a, k) && !Ends(s, a, k) && f != []
    ensures DueAfter(cfg, s.now, |f|, Apply(cfg, s, a).timers[k].due)
  {
    assert s.workers[a.w] in s.workers;
  }

  lemma StepTimer(cfg: Config, s: State, a: Action, k: nat, f: seq<bool>)
    requires Placed(s) && Enabled(s, a) && OutcomeInv(s, k, f) && k in Apply(cfg, s, a).timers
    ensures After(s, a, k, f) == f
    ensures k in s.timers ==> Apply(cfg, s, a).timers[k] == s.timers[k]
    ensures k !in s.timers ==> ReportsFailure(s, a, k) && DueAfter(cfg, s.now, |f|, Apply(cfg, s, a).timers[k].due)
  {
    if k in s.timers { TimerStays(cfg, s, a, k); } else { TimerStarts(cfg, s, a, k, f); }
  }

  ghost predicate OutcomeAt(cfg: Config, actions: seq<Action>, states: seq<State>, n: nat, k: nat)
    requires n < |actions| < |states|
  {
    var f := Outcomes(actions, states, n, k);
    && Placed(states[n]) && Enabled(states[n], actions[n]) && OutcomeInv(states[n], k, f)
    && states[n + 1] == Apply(cfg, states[n], actions[n])
    && Outcomes(actions, states, n + 1, k) == After(states[n], actions[n], k, f)
  }

  lemma RunOutcomeAt(cfg: Config, actions: seq<Action>, states: seq<State>, n: nat, k: nat)
    requires IsRun(cfg, actions, states) && n < |actions|
    ensures OutcomeAt(cfg, actions, states, n, k)
  {
    RunPlaced(cfg, actions, states, n);
    RunOutcome(cfg, actions, states, n, k);
  }

  /** A failed job waits for exactly the backoff of its number of failures, counted
      from the report of the last one, at step `j`. */
  lemma {:induction false} RetryDue(cfg: Config, actions: seq<Action>, states: seq<State>, n: nat, k: nat)
    returns (j: nat)
    requires IsRun(cfg, actions, states) && n <= |actions| && k in states[n].timers
    ensures j < n && ReportsFailure(states[j], actions[j], k)
    ensures DueAfter(cfg, states[j].now, |Outcomes(actions, states, n, k)|, states[n].timers[k].due)
    ensures forall i :: j < i <= n ==> k in states[i].timers
  {
    j := n - 1;
    RunOutcomeAt(cfg, actions, states, j, k);
    StepTimer(cfg, states[j], actions[j], k, Outcomes(actions, states, j, k));
    if k in states[n - 1].timers { j := RetryDue(cfg, actions, states, n - 1, k); }
  }

  lemma TimerStays(cfg: Config, s: State, a: Action, k: nat)
    requires Placed(s) && Enabled(s, a) && k in s.timers && k in Apply(cfg, s, a).timers
    ensures Apply(cfg, s, a).timers[k] == s.timers[k] && !Ends(s, a, k)
  {
    assert PlacedOnce(s, k);
  }

  // ------------------------------------------------------------------ the queue

  /** What step `n` puts into the queue. */
  function Put(s: State, a: Action): seq<Job> {
    match a
    case Submit(key) => if |s.queue| < 1024 then [Job(key, 0)] else []
    case Requeue(key) => if key in s.timers then [Job(key, s.timers[key].attempt)] else []
    case _ => []
  }

  /** What a worker has in hand after step `a`. */
  function Took(s': State, a: Action): seq<Job> {
    if a.Take? && a.w < |s'.workers| && s'.workers[a.w].Forwarding? then [s'.workers[a.w].job] else []
  }

  function Puts(actions: seq<Action>, states: seq<State>, n: nat): seq<Job>
    requires n <= |actions| < |states|
  {
    if n == 0 then [] else Puts(actions, states, n - 1) + Put(states[n - 1], actions[n - 1])
  }

  function Takes(actions: seq<Action>, states: seq<State>, n: nat): seq<Job>
    requires n <= |actions| < |states|
  {
    if n == 0 then [] else Takes(actions, states, n - 1) + Took(states[n], actions[n - 1])
  }

  /** Jobs are taken in the order in which they were put: what was put is what was
      taken followed by what is queued. */
  lemma {:induction false} FirstInFirstOut(cfg: Config, actions: seq<Action>, states: seq<State>, n: nat)
    requires IsRun(cfg, actions, states) && n <= |actions|
    ensures Puts(actions, states, n) == Takes(actions, states, n) + states[n].queue
  {
    if n > 0 {
      FirstInFirstOut(cfg, actions, states, n - 1);
      var s, a := states[n - 1], actions[n - 1];
      assert states[n] == Apply(cfg, s, a);
      FifoStep(cfg, s, a, Puts(actions, states, n - 1), Takes(actions, states, n - 1));
    }
  }

  lemma FifoStep(cfg: Config, s: State, a: Action, puts: seq<Job>, takes: seq<Job>)
    requires Enabled(s, a) && puts == takes + s.queue
    ensures
      var s' := Apply(cfg, s, a);
      puts + Put(s, a) == takes + Took(s', a) + s'.queue
  {
    if a.Take? { assert s.queue == [s.queue[0]] + s.queue[1..]; }
  }

  /** A submission is recorded as accepted; when the queue is full it is also
      recorded as turned away, and no job comes of it. */
  lemma SubmitExact(cfg: Config, s: State, key: nat)
    requires Enabled(s, Submit(key))
    ensures
      var s' := Apply(cfg, s, Submit(key));
      && key in s'.log
      && (|s.queue| < 1024 ==>
            s'.log[key] == [Accepted] && s'.jobs == s.jobs + {key} && s'.queue == s.queue + [Job(key, 0)])
      && (|s.queue| >= 1024 ==> s'.log[key] == [Accepted, BufferFull] && s'.jobs == s.jobs && s'.queue == s.queue)
      && (forall k :: k in s.log ==> k in s'.log && s'.log[k] == s.log[k])
      && s'.workers == s.workers && s'.timers == s.timers && s'.done == s.done
  {
  }
}
