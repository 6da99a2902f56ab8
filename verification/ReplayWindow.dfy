/** Webhook replay protection: a cache of delivery IDs with their acceptance
    times, purged on every use, against the rule it implements. */
module ReplayWindow {

  type Cache = map<string, int>

  function Purged(m: Cache, now: int, ttl: int): Cache {
    map id | id in m && now - m[id] <= ttl :: m[id]
  }

  function AfterReserve(m: Cache, id: string, now: int, ttl: int): Cache {
    var p := Purged(m, now, ttl);
    if id in p then p else p[id := now]
  }

  class DeliveryCache {
    const ttl: int
    var seenAt: Cache

    constructor (ttl: int)
      ensures this.ttl == ttl && seenAt == map[]
    {
      this.ttl, seenAt := ttl, map[];
    }

    method ReserveDelivery(id: string, now: int) returns (isNew: bool)
      modifies this
      ensures isNew <==> id !in Purged(old(seenAt), now, ttl)
      ensures seenAt == AfterReserve(old(seenAt), id, now, ttl)
    {
      var rest := seenAt.Keys;
      while rest != {}
        invariant rest <= seenAt.Keys <= old(seenAt).Keys
        invariant forall k :: k in seenAt ==> seenAt[k] == old(seenAt)[k]
        invariant forall k :: k in old(seenAt) ==> (k in seenAt <==> k in rest || now - old(seenAt)[k] <= ttl)
        decreases rest
      {
        var k :| k in rest;
        if now - seenAt[k] > ttl { seenAt := seenAt - {k}; }
        rest := rest - {k};
      }
      assert seenAt == Purged(old(seenAt), now, ttl);
      if id in seenAt { return false; }
      seenAt := seenAt[id := now];
      return true;
    }
  }

  // ------------------------------------------------------------------------ the rule

  datatype Attempt = Attempt(id: string, now: int)

  /** The rule, without a cache: a delivery is accepted unless the same ID was
      accepted at most `ttl` ago. */
  ghost predicate AcceptedAt(run: seq<Attempt>, ttl: int, n: nat)
    requires n < |run|
    decreases n
  {
    forall j: nat :: j < n && run[j].id == run[n].id && AcceptedAt(run, ttl, j) ==> run[n].now - run[j].now > ttl
  }

  function CacheAfter(run: seq<Attempt>, ttl: int, n: nat): Cache
    requires n <= |run|
  {
    if n == 0 then map[] else AfterReserve(CacheAfter(run, ttl, n - 1), run[n - 1].id, run[n - 1].now, ttl)
  }

  /** What the code answers to attempt `n`. */
  predicate Reserved(run: seq<Attempt>, ttl: int, n: nat)
    requires n < |run|
  {
    run[n].id !in Purged(CacheAfter(run, ttl, n), run[n].now, ttl)
  }

  ghost predicate Nondecreasing(run: seq<Attempt>) {
    forall i, j :: 0 <= i < j < |run| ==> run[i].now <= run[j].now
  }

  /** Attempt `j`, among the first `n`, was accepted and is no older than `ttl` at `now`. */
  ghost predicate Live(run: seq<Attempt>, ttl: int, n: nat, j: nat, now: int)
    requires n <= |run|
  {
    j < n && AcceptedAt(run, ttl, j) && now - run[j].now <= ttl
  }

  /** The cache, read at a time `now` no earlier than the last use, is exactly the
      live acceptances. */
  ghost predicate CacheExact(run: seq<Attempt>, ttl: int, n: nat, now: int)
    requires n <= |run|
  {
    Mirrors(run, ttl, n, now, Purged(CacheAfter(run, ttl, n), now, ttl))
  }

  ghost predicate Mirrors(run: seq<Attempt>, ttl: int, n: nat, now: int, m: Cache)
    requires n <= |run|
  {
    && (forall j: nat :: Live(run, ttl, n, j, now) ==> run[j].id in m && m[run[j].id] == run[j].now)
    && (forall id :: id in m ==> exists j: nat :: Live(run, ttl, n, j, now) && run[j].id == id && run[j].now == m[id])
  }

  lemma PurgeTwice(m: Cache, a: int, b: int, ttl: int)
    requires a <= b
    ensures Purged(Purged(m, a, ttl), b, ttl) == Purged(m, b, ttl)
  {
  }

  lemma VerdictMatches(run: seq<Attempt>, ttl: int, n: nat)
    requires n < |run| && CacheExact(run, ttl, n, run[n].now)
    ensures Reserved(run, ttl, n) <==> AcceptedAt(run, ttl, n)
  {
    var now, id := run[n].now, run[n].id;
    var m := Purged(CacheAfter(run, ttl, n), now, ttl);
    if id in m {
      var j: nat :| Live(run, ttl, n, j, now) && run[j].id == id && run[j].now == m[id];
      assert AcceptedAt(run, ttl, j);
    } else {
      forall j: nat | j < n && run[j].id == id && AcceptedAt(run, ttl, j) ensures now - run[j].now > ttl {
        assert !Live(run, ttl, n, j, now);
      }
    }
  }

  lemma ReserveThenPurge(m: Cache, id: string, t: int, now: int, ttl: int)
    requires t <= now
    ensures
      var p, q := Purged(m, t, ttl), Purged(m, now, ttl);
      && (id !in p ==> id !in q)
      && Purged(AfterReserve(m, id, t, ttl), now, ttl) == if id !in p && now - t <= ttl then q[id := t] else q
  {
    PurgeTwice(m, t, now, ttl);
  }

  /** Every acceptance live among the first `n + 1` attempts was live among the
      first `n` or is attempt `n` itself. */
  lemma LiveStep(run: seq<Attempt>, ttl: int, n: nat, now: int, j: nat)
    requires n < |run|
    ensures Live(run, ttl, n + 1, j, now) <==>
            Live(run, ttl, n, j, now) || (j == n && AcceptedAt(run, ttl, n) && now - run[n].now <= ttl)
  {
  }

  lemma MirrorsStep(run: seq<Attempt>, ttl: int, n: nat, now: int, m: Cache, m': Cache, added: bool)
    requires n < |run| && Mirrors(run, ttl, n, now, m)
    requires added == (AcceptedAt(run, ttl, n) && now - run[n].now <= ttl)
    requires added ==> run[n].id !in m
    requires m' == if added then m[run[n].id := run[n].now] else m
    ensures Mirrors(run, ttl, n + 1, now, m')
  {
    forall j: nat | Live(run, ttl, n + 1, j, now) ensures run[j].id in m' && m'[run[j].id] == run[j].now {
      LiveStep(run, ttl, n, now, j);
    }
    forall k | k in m' ensures exists j: nat :: Live(run, ttl, n + 1, j, now) && run[j].id == k && run[j].now == m'[k] {
      if added && k == run[n].id {
        LiveStep(run, ttl, n, now, n);
      } else {
        var j: nat :| Live(run, ttl, n, j, now) && run[j].id == k && run[j].now == m[k];
        LiveStep(run, ttl, n, now, j);
      }
    }
  }

  lemma CacheStep(run: seq<Attempt>, ttl: int, n: nat, now: int)
    requires n < |run| && run[n].now <= now
    requires CacheExact(run, ttl, n, run[n].now) && CacheExact(run, ttl, n, now)
    ensures CacheExact(run, ttl, n + 1, now)
  {
    var t, id, c := run[n].now, run[n].id, CacheAfter(run, ttl, n);
    var m, m' := Purged(c, now, ttl), Purged(CacheAfter(run, ttl, n + 1), now, ttl);
    VerdictMatches(run, ttl, n);
    ReserveThenPurge(c, id, t, now, ttl);
    MirrorsStep(run, ttl, n, now, m, m', AcceptedAt(run, ttl, n) && now - t <= ttl);
  }

  lemma {:induction false} CacheIsWindow(run: seq<Attempt>, ttl: int, n: nat, now: int)
    requires Nondecreasing(run) && n <= |run| && (n > 0 ==> run[n - 1].now <= now)
    ensures CacheExact(run, ttl, n, now)
  {
    if n > 0 {
      assert n > 1 ==> run[n - 2].now <= run[n - 1].now;
      CacheIsWindow(run, ttl, n - 1, run[n - 1].now);
      CacheIsWindow(run, ttl, n - 1, now);
      CacheStep(run, ttl, n - 1, now);
    }
  }

  /** On a clock that does not run backwards, the cache answers every attempt as
      the rule does; so two acceptances of one ID are more than `ttl` apart. */
  lemma WindowRefinesRule(run: seq<Attempt>, ttl: int, n: nat)
    requires Nondecreasing(run) && n < |run|
    ensures Reserved(run, ttl, n) <==> AcceptedAt(run, ttl, n)
    ensures forall j: nat :: j < n && run[j].id == run[n].id && Reserved(run, ttl, j) && Reserved(run, ttl, n) ==>
              run[n].now - run[j].now > ttl
  {
    assert n > 0 ==> run[n - 1].now <= run[n].now;
    CacheIsWindow(run, ttl, n, run[n].now);
    VerdictMatches(run, ttl, n);
    forall j: nat | j < n && run[j].id == run[n].id && Reserved(run, ttl, j) && Reserved(run, ttl, n)
      ensures run[n].now - run[j].now > ttl
    {
      assert j > 0 ==> run[j - 1].now <= run[j].now;
      CacheIsWindow(run, ttl, j, run[j].now);
      VerdictMatches(run, ttl, j);
    }
  }

  /** Rejected repeats never extend the window: once more than `ttl` has passed
      since the last acceptance, the next attempt is accepted, however many were
      refused in between. */
  lemma RejectionsDoNotExtend(run: seq<Attempt>, ttl: int, j: nat, n: nat)
    requires Nondecreasing(run) && j < n < |run| && run[n].now - run[j].now > ttl
    requires forall i: nat :: j < i < n && run[i].id == run[n].id ==> !Reserved(run, ttl, i)
    ensures Reserved(run, ttl, n)
  {
    WindowRefinesRule(run, ttl, n);
    forall i: nat | i < n && run[i].id == run[n].id && AcceptedAt(run, ttl, i) ensures run[n].now - run[i].now > ttl {
      WindowRefinesRule(run, ttl, i);
      if i < j { assert run[i].now <= run[j].now; }
    }
  }
}
