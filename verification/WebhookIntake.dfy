/** Receiving a webhook: header checks, replay reservation, payload and signature
    checks, then the forwarding queue; and the whole path from there. */
module WebhookIntake {
  import opened Text
  import opened ReplayWindow
  import WebhookJobs

  /** A request; `hasRepository` and `signatureValid` are what parsing the body and
      checking its signature come to. */
  datatype Request = Request(
    event: string, signature: string, deliveryId: string, isJson: bool, hasRepository: bool, signatureValid: bool)

  datatype Answer = Ok | BadRequest | Conflict | Unauthorized

  class Intake {
    const cfg: WebhookJobs.Config
    const cache: DeliveryCache
    var jobs: WebhookJobs.State

    constructor (cfg: WebhookJobs.Config, ttl: int, now: int)
      ensures this.cfg == cfg && fresh(cache) && cache.ttl == ttl && cache.seenAt == map[]
      ensures jobs == WebhookJobs.Initial(now)
    {
      this.cfg := cfg;
      cache := new DeliveryCache(ttl);
      jobs := WebhookJobs.Initial(now);
    }

    /** Only a request with all headers touches the replay cache, and it reserves
        its delivery ID even if the body or signature is then refused.  Only an
        accepted request submits a job, named `key` here, which the queue takes or
        turns away. */
    method HandleGitHubWebhook(req: Request, key: nat) returns (answer: Answer)
      requires WebhookJobs.Enabled(jobs, WebhookJobs.Submit(key))
      modifies this, cache
      ensures
        var id := TrimSpace(req.deliveryId);
        var present := TrimSpace(req.event) != "" && TrimSpace(req.signature) != "" && id != "" && req.isJson;
        var repeated := id in old(cache.seenAt) && jobs.now - old(cache.seenAt)[id] <= cache.ttl;
        && cache.seenAt ==
           (if present then AfterReserve(old(cache.seenAt), id, jobs.now, cache.ttl) else old(cache.seenAt))
        && (answer == Conflict <==> present && repeated)
        && (answer == Unauthorized <==> present && !repeated && req.hasRepository && !req.signatureValid)
        && (answer == Ok <==> present && !repeated && req.hasRepository && req.signatureValid)
      ensures jobs == if answer == Ok then WebhookJobs.Apply(cfg, old(jobs), WebhookJobs.Submit(key)) else old(jobs)
    {
      var id := TrimSpace(req.deliveryId);
      if TrimSpace(req.event) == "" || TrimSpace(req.signature) == "" || id == "" { return BadRequest; }
      if !req.isJson { return BadRequest; }
      var reserved := cache.ReserveDelivery(id, jobs.now);
      if !reserved { return Conflict; }
      if !req.hasRepository { return BadRequest; }
      if !req.signatureValid { return Unauthorized; }
      jobs := jobs.(log := WebhookJobs.Persist(jobs.log, key, WebhookJobs.Accepted));
      if |jobs.queue| < WebhookJobs.CAPACITY {
        jobs := jobs.(queue := jobs.queue + [WebhookJobs.Job(key, 0)], jobs := jobs.jobs + {key},
                      sent := jobs.sent[key := []]);
      } else {
        jobs := jobs.(log := WebhookJobs.Persist(jobs.log, key, WebhookJobs.BufferFull));
      }
      return Ok;
    }
  }

  // ------------------------------------------------------- reservation to forward

  /** All of it together: reservations so far, and for each submitted job the
      reservation it belongs to.  A request reserves in one step and submits in a
      later one, with anything in between. */
  datatype Pipeline = Pipeline(jobs: WebhookJobs.State, attempts: seq<Attempt>, owner: map<nat, nat>)

  datatype Action = Reserve(id: string) | Accept(key: nat, n: nat) | Work(a: WebhookJobs.Action)

  ghost predicate Enabled(ttl: int, p: Pipeline, a: Action) {
    match a
    case Reserve(_) => true
    case Accept(key, n) =>
      && n < |p.attempts| && Reserved(p.attempts, ttl, n) && (forall k :: k in p.owner ==> p.owner[k] != n)
      && key !in p.owner && WebhookJobs.Enabled(p.jobs, WebhookJobs.Submit(key))
    case Work(w) => !w.Submit? && WebhookJobs.Enabled(p.jobs, w)
  }

  ghost function Apply(cfg: WebhookJobs.Config, ttl: int, p: Pipeline, a: Action): Pipeline
    requires Enabled(ttl, p, a)
  {
    match a
    case Reserve(id) => p.(attempts := p.attempts + [Attempt(id, p.jobs.now)])
    case Accept(key, n) =>
      p.(jobs := WebhookJobs.Apply(cfg, p.jobs, WebhookJobs.Submit(key)), owner := p.owner[key := n])
    case Work(w) => p.(jobs := WebhookJobs.Apply(cfg, p.jobs, w))
  }

  ghost predicate IsRun(cfg: WebhookJobs.Config, ttl: int, actions: seq<Action>, states: seq<Pipeline>) {
    && |states| == |actions| + 1
    && states[0] == Pipeline(WebhookJobs.Initial(states[0].jobs.now), [], map[])
    && forall j :: 0 <= j < |actions| ==>
         Enabled(ttl, states[j], actions[j]) && states[j + 1] == Apply(cfg, ttl, states[j], actions[j])
  }

  lemma {:induction false} CacheOfPrefix(run: seq<Attempt>, x: Attempt, ttl: int, n: nat)
    requires n <= |run|
    ensures CacheAfter(run + [x], ttl, n) == CacheAfter(run, ttl, n)
  {
    if n > 0 { CacheOfPrefix(run, x, ttl, n - 1); }
  }

  ghost predicate OwnerInv(ttl: int, p: Pipeline) {
    && (forall k :: k in p.owner ==> p.owner[k] < |p.attempts| && Reserved(p.attempts, ttl, p.owner[k]))
    && (forall k, l :: k in p.owner && l in p.owner && k != l ==> p.owner[k] != p.owner[l])
    && p.jobs.jobs <= p.owner.Keys
  }

  ghost predicate ClockInv(p: Pipeline) {
    Nondecreasing(p.attempts) && forall i :: 0 <= i < |p.attempts| ==> p.attempts[i].now <= p.jobs.now
  }

  ghost predicate Inv(cfg: WebhookJobs.Config, ttl: int, p: Pipeline) {
    WebhookJobs.Inv(cfg, p.jobs) && ClockInv(p) && OwnerInv(ttl, p)
  }

  lemma JobsStep(cfg: WebhookJobs.Config, s: WebhookJobs.State, a: WebhookJobs.Action)
    requires WebhookJobs.Enabled(s, a)
    ensures
      var s' := WebhookJobs.Apply(cfg, s, a);
      s.now <= s'.now && s'.jobs <= s.jobs + (if a.Submit? then {a.key} else {})
  {
  }

  lemma StepInv(cfg: WebhookJobs.Config, ttl: int, p: Pipeline, a: Action)
    requires Inv(cfg, ttl, p) && Enabled(ttl, p, a)
    ensures Inv(cfg, ttl, Apply(cfg, ttl, p, a))
  {
    match a
    case Reserve(id) =>
      forall k | k in p.owner ensures Reserved(p.attempts + [Attempt(id, p.jobs.now)], ttl, p.owner[k]) {
        CacheOfPrefix(p.attempts, Attempt(id, p.jobs.now), ttl, p.owner[k]);
      }
    case Accept(key, n) =>
      WebhookJobs.StepInv(cfg, p.jobs, WebhookJobs.Submit(key));
      JobsStep(cfg, p.jobs, WebhookJobs.Submit(key));
    case Work(w) =>
      WebhookJobs.StepInv(cfg, p.jobs, w);
      JobsStep(cfg, p.jobs, w);
  }

  lemma {:induction false} RunInv(cfg: WebhookJobs.Config, ttl: int, actions: seq<Action>, states: seq<Pipeline>,
                                  n: nat)
    requires IsRun(cfg, ttl, actions, states) && n <= |actions|
    ensures Inv(cfg, ttl, states[n])
  {
    if n == 0 {
      WebhookJobs.InitialInv(cfg, states[0].jobs.now);
    } else {
      RunInv(cfg, ttl, actions, states, n - 1);
      StepInv(cfg, ttl, states[n - 1], actions[n - 1]);
      assert states[n] == Apply(cfg, ttl, states[n - 1], actions[n - 1]);
    }
  }

  /** From the header to the last forward: two jobs for one delivery ID stem from
      reservations more than the replay window apart, and each is sent at most
      `MaxSends` times, over every interleaving of requests, workers and timers. */
  lemma DeliveriesAreSpread(cfg: WebhookJobs.Config, ttl: int, actions: seq<Action>, states: seq<Pipeline>, n: nat,
                            k: nat, l: nat)
    requires IsRun(cfg, ttl, actions, states) && n <= |actions|
    requires k in states[n].jobs.jobs && l in states[n].jobs.jobs && k != l
    ensures
      var p := states[n];
      && k in p.owner && l in p.owner && p.owner[k] < |p.attempts| && p.owner[l] < |p.attempts|
      && k in p.jobs.sent && |p.jobs.sent[k]| <= WebhookJobs.MaxSends(cfg)
      && var a, b := p.attempts[p.owner[k]], p.attempts[p.owner[l]];
         a.id == b.id ==> a.now - b.now > ttl || b.now - a.now > ttl
  {
    RunInv(cfg, ttl, actions, states, n);
    var p := states[n];
    WebhookJobs.SentAtMost(cfg, p.jobs, k);
    WindowRefinesRule(p.attempts, ttl, p.owner[k]);
    WindowRefinesRule(p.attempts, ttl, p.owner[l]);
  }
}
