/** Control-plane requests: try the candidates in order, mark each one that
    fails, stop at the first success. */
module Failover {
  import opened Wrappers
  import opened Text
  import opened PoolTypes
  import opened Routing
  import opened Pool

  /** What dialling and calling one candidate comes to. */
  datatype Outcome = Success(response: string) | Failure(error: string)

  datatype Reply =
    | Response(response: string)
    | SelectionFailed(why: Selection)
    | CallFailed(error: string)
    | NoCandidateTried

  /** A request and what would happen to its first, second, ... attempt. */
  datatype Request = Request(clusterId: string, session: string, workload: string, calls: nat -> Outcome)

  datatype Handled = Handled(clusters: Clusters, reply: Reply, failed: nat)

  function LeadingFailures(calls: nat -> Outcome, n: nat): (k: nat)
    ensures k <= n
    ensures forall j: nat :: j < k ==> calls(j).Failure?
    ensures k < n ==> calls(k).Success?
  {
    if n == 0 then 0
    else
      var k := LeadingFailures(calls, n - 1);
      if k == n - 1 && calls(k).Failure? then n else k
  }

  function AfterMarks(cs: Clusters, id: string, list: seq<Scheduler>, k: nat): Clusters
    requires k <= |list|
  {
    if k == 0 then cs else AfterMark(AfterMarks(cs, id, list, k - 1), id, list[k - 1].address)
  }

  /** The cluster whose entries a request marks. */
  ghost function MarkedId(cfg: PoolConfig, cs: Clusters, id: string): string {
    if id == "" then DefaultId(cfg, cs) else id
  }

  /** Walking down a candidate list. */
  function TryAll(cs: Clusters, id: string, list: seq<Scheduler>, calls: nat -> Outcome): Handled {
    var k := LeadingFailures(calls, |list|);
    var cs' := AfterMarks(cs, id, list, k);
    if k < |list| then Handled(cs', Response(calls(k).response), k)
    else if k == 0 then Handled(cs', NoCandidateTried, k)
    else Handled(cs', CallFailed(calls(k - 1).error), k)
  }

  ghost function Invoke(cfg: PoolConfig, cs: Clusters, req: Request, hash: KeyHash): Handled {
    var id := MarkedId(cfg, cs, req.clusterId);
    var sel := Ordered(cfg, cs, id, req.session, req.workload, hash);
    if sel.Candidates? then TryAll(cs, id, sel.list, req.calls) else Handled(cs, SelectionFailed(sel), 0)
  }

  class ControlClient {
    const pool: SchedulerPool

    constructor (pool: SchedulerPool)
      ensures this.pool == pool
    {
      this.pool := pool;
    }

    method InvokeControlRpc(req: Request, hash: KeyHash) returns (reply: Reply, failed: nat)
      modifies pool
      ensures Handled(pool.clusters, reply, failed) == Invoke(pool.cfg, old(pool.clusters), req, hash)
    {
      var id := req.clusterId;
      if id == "" { id := pool.DefaultClusterId(); }
      var sel := pool.OrderedSchedulers(id, req.session, req.workload, hash);
      if !sel.Candidates? { return SelectionFailed(sel), 0; }
      reply, failed := TryCandidates(id, sel.list, req.calls);
    }

    method TryCandidates(id: string, list: seq<Scheduler>, calls: nat -> Outcome) returns (reply: Reply, failed: nat)
      modifies pool
      ensures Handled(pool.clusters, reply, failed) == TryAll(old(pool.clusters), id, list, calls)
    {
      failed := 0;
      var lastErr: Option<string> := None;
      for n := 0 to |list|
        invariant failed == n == LeadingFailures(calls, n)
        invariant lastErr == if n == 0 then None else Some(calls(n - 1).error)
        invariant pool.clusters == AfterMarks(old(pool.clusters), id, list, n)
      {
        match calls(n)
        case Failure(err) =>
          pool.MarkUnhealthy(id, list[n].address);
          lastErr := Some(err);
          failed := failed + 1;
        case Success(resp) =>
          StopsAt(calls, n, |list|);
          return Response(resp), failed;
      }
      match lastErr
      case None => reply := NoCandidateTried;
      case Some(err) => reply := CallFailed(err);
    }
  }

  lemma {:induction false} StopsAt(calls: nat -> Outcome, k: nat, n: nat)
    requires k < n && LeadingFailures(calls, k) == k && calls(k).Success?
    ensures LeadingFailures(calls, n) == k
    decreases n
  {
    if k < n - 1 { StopsAt(calls, k, n - 1); }
  }

  // ------------------------------------------------------------ failure bound

  ghost function HealthyIn(cs: Clusters, c: string): nat {
    if c in cs then |HealthyOf(cs[c].schedulers)| else 0
  }

  /** Marking a set of addresses at once. */
  function MarkedSet(ss: seq<Scheduler>, bad: set<string>): (r: seq<Scheduler>)
    ensures |r| == |ss|
  {
    seq(|ss|, i requires 0 <= i < |ss| => if ss[i].address in bad then ss[i].(healthy := false) else ss[i])
  }

  function Addresses(list: seq<Scheduler>): set<string> {
    set s | s in list :: s.address
  }

  lemma {:induction false} AfterMarksIsMarkedSet(cs: Clusters, id: string, list: seq<Scheduler>, k: nat)
    requires k <= |list|
    ensures AfterMarks(cs, id, list, k).Keys == cs.Keys
    ensures forall c :: c in cs && c != id ==> AfterMarks(cs, id, list, k)[c] == cs[c]
    ensures id in cs ==>
      AfterMarks(cs, id, list, k)[id] == cs[id].(schedulers := MarkedSet(cs[id].schedulers, Addresses(list[..k])))
  {
    if k == 0 {
      if id in cs { assert MarkedSet(cs[id].schedulers, Addresses(list[..0])) == cs[id].schedulers; }
    } else {
      AfterMarksIsMarkedSet(cs, id, list, k - 1);
      assert list[..k] == list[..k - 1] + [list[k - 1]];
      assert Addresses(list[..k]) == Addresses(list[..k - 1]) + {list[k - 1].address};
      if id in cs {
        assert Marked(MarkedSet(cs[id].schedulers, Addresses(list[..k - 1])), list[k - 1].address)
            == MarkedSet(cs[id].schedulers, Addresses(list[..k]));
      }
    }
  }

  lemma {:induction false} MarkedSetCount(ss: seq<Scheduler>, bad: set<string>, x: Scheduler)
    requires x.healthy
    ensures multiset(MarkedSet(ss, bad))[x] == if x.address in bad then 0 else multiset(ss)[x]
  {
    if ss != [] {
      var init, last := ss[..|ss| - 1], ss[|ss| - 1];
      MarkedSetCount(init, bad, x);
      assert ss == init + [last];
      assert MarkedSet(ss, bad) == MarkedSet(init, bad) + [if last.address in bad then last.(healthy := false)
        else last];
    }
  }

  /** Marking the first `k` candidates costs at least `k` healthy entries, even
      when several candidates share an address. */
  lemma MarksCost(ss: seq<Scheduler>, list: seq<Scheduler>, k: nat)
    requires k <= |list|
    requires forall x: Scheduler :: multiset(list)[x] == if x.healthy then multiset(ss)[x] else 0
    ensures |HealthyOf(MarkedSet(ss, Addresses(list[..k])))| + k <= |HealthyOf(ss)|
  {
    var left := HealthyOf(MarkedSet(ss, Addresses(list[..k])));
    assert list == list[..k] + list[k..];
    forall x: Scheduler ensures multiset(left)[x] <= multiset(list[k..])[x] {
      HealthyCount(MarkedSet(ss, Addresses(list[..k])), x);
      if x.healthy {
        MarkedSetCount(ss, Addresses(list[..k]), x);
        if x.address !in Addresses(list[..k]) { assert x !in list[..k]; }
      }
    }
    SubmultisetLength(left, list[k..]);
    forall x: Scheduler ensures multiset(HealthyOf(ss))[x] == multiset(list)[x] { HealthyCount(ss, x); }
    assert multiset(HealthyOf(ss)) == multiset(list);
    assert |HealthyOf(ss)| == |multiset(list)| == |list|;
  }

  lemma SubmultisetLength<T(!new)>(a: seq<T>, b: seq<T>)
    requires forall x :: multiset(a)[x] <= multiset(b)[x]
    ensures |a| <= |b|
  {
    assert multiset(a) <= multiset(b);
    assert multiset(b) == multiset(a) + (multiset(b) - multiset(a));
    assert |a| == |multiset(a)| && |b| == |multiset(b)|;
  }

  /** The request marks the cluster it selects from.  It fails to only for a
      cluster ID made of white space: selection treats it as blank and uses the
      default, marking uses it as it is. */
  ghost predicate WellAddressed(cfg: PoolConfig, cs: Clusters, id: string) {
    id == "" || TrimSpace(id) != "" || id == DefaultId(cfg, cs)
  }

  ghost function Target(cfg: PoolConfig, cs: Clusters, id: string): string {
    SelectedId(cfg, cs, MarkedId(cfg, cs, id))
  }

  lemma TargetIsMarked(cfg: PoolConfig, cs: Clusters, id: string)
    ensures WellAddressed(cfg, cs, id) <==> Target(cfg, cs, id) == MarkedId(cfg, cs, id)
  {
  }

  /** Call `k` is the first of `n` that succeeds. */
  ghost predicate FirstSuccess(calls: nat -> Outcome, n: nat, k: nat) {
    k < n && calls(k).Success? && forall j: nat :: j < k ==> calls(j).Failure?
  }

  /** What a request is answered: the response of the first call that succeeds, the
      last error if all fail, and the selection's error only if there was nothing
      to try. */
  lemma InvokeSelection(cfg: PoolConfig, cs: Clusters, req: Request, hash: KeyHash)
    ensures
      var h := Invoke(cfg, cs, req, hash);
      var sel := Ordered(cfg, cs, MarkedId(cfg, cs, req.clusterId), req.session, req.workload, hash);
      && !h.reply.NoCandidateTried?
      && (sel.Candidates? ==> sel.list != [] && Target(cfg, cs, req.clusterId) in cs)
      && (forall k: nat :: sel.Candidates? && FirstSuccess(req.calls, |sel.list|, k) ==>
            h.reply == Response(req.calls(k).response) && h.failed == k)
      && (h.reply.Response? ==> sel.Candidates? && FirstSuccess(req.calls, |sel.list|, h.failed))
      && (h.reply.CallFailed? <==> sel.Candidates? && forall j: nat :: j < |sel.list| ==> req.calls(j).Failure?)
      && (h.reply.CallFailed? ==> h.failed == |sel.list| && h.reply.error == req.calls(|sel.list| - 1).error)
      && (h.reply.SelectionFailed? <==> !sel.Candidates?)
      && (!sel.Candidates? ==> h == Handled(cs, SelectionFailed(sel), 0))
  {
    var c := Target(cfg, cs, req.clusterId);
    var sel := Ordered(cfg, cs, MarkedId(cfg, cs, req.clusterId), req.session, req.workload, hash);
    if sel.Candidates? {
      assert sel.list != [] by {
        SelectPermutesHealthy(cs[c].schedulers, cs[c].strategy, req.session, req.workload, hash);
      }
      WalkReply(cs, MarkedId(cfg, cs, req.clusterId), sel.list, req.calls);
    }
  }

  lemma WalkReply(cs: Clusters, id: string, list: seq<Scheduler>, calls: nat -> Outcome)
    requires list != []
    ensures
      var h := TryAll(cs, id, list, calls);
      && (h.reply.Response? || h.reply.CallFailed?)
      && (forall k: nat :: FirstSuccess(calls, |list|, k) ==> h.reply == Response(calls(k).response) && h.failed == k)
      && (h.reply.Response? ==> FirstSuccess(calls, |list|, h.failed))
      && (h.reply.CallFailed? <==> forall j: nat :: j < |list| ==> calls(j).Failure?)
      && (h.reply.CallFailed? ==> h.failed == |list| && h.reply.error == calls(|list| - 1).error)
  {
    var k := LeadingFailures(calls, |list|);
    if k < |list| { assert FirstSuccess(calls, |list|, k) && !calls(k).Failure?; }
    forall k': nat | FirstSuccess(calls, |list|, k') ensures k' == k {
      assert !calls(k').Failure?;
    }
  }

  /** What a request marks: in the cluster it names, exactly the entries at the
      addresses of the candidates tried in vain lose their health; nothing else
      changes. */
  lemma InvokeMarks(cfg: PoolConfig, cs: Clusters, req: Request, hash: KeyHash)
    ensures
      var h, id := Invoke(cfg, cs, req, hash), MarkedId(cfg, cs, req.clusterId);
      var sel := Ordered(cfg, cs, id, req.session, req.workload, hash);
      && h.clusters.Keys == cs.Keys
      && (forall o :: o in cs && o != id ==> h.clusters[o] == cs[o])
      && (id in cs ==>
            var ss, ss' := cs[id].schedulers, h.clusters[id].schedulers;
            && h.clusters[id] == cs[id].(schedulers := ss') && |ss'| == |ss|
            && forall i :: 0 <= i < |ss| ==>
                 ss'[i] == ss[i].(healthy := ss[i].healthy &&
                   !(sel.Candidates? && TriedInVain(sel.list, h.failed, ss[i].address))))
  {
    var id := MarkedId(cfg, cs, req.clusterId);
    var sel := Ordered(cfg, cs, id, req.session, req.workload, hash);
    if sel.Candidates? {
      var k := LeadingFailures(req.calls, |sel.list|);
      AfterMarksIsMarkedSet(cs, id, sel.list, k);
      forall a ensures a in Addresses(sel.list[..k]) <==> TriedInVain(sel.list, k, a) {
        TriedAddresses(sel.list, k, a);
      }
    }
  }

  lemma TriedAddresses(list: seq<Scheduler>, k: nat, a: string)
    requires k <= |list|
    ensures a in Addresses(list[..k]) <==> TriedInVain(list, k, a)
  {
    if TriedInVain(list, k, a) {
      var j :| 0 <= j < k && j < |list| && list[j].address == a;
      assert list[j] in list[..k];
    }
  }

  ghost predicate TriedInVain(list: seq<Scheduler>, failed: nat, a: string) {
    exists j :: 0 <= j < failed && j < |list| && list[j].address == a
  }

  /** One request, whatever its calls do: the failed attempts are paid for by
      entries of the target that turn unhealthy, no other cluster changes, and
      the "nothing was tried" fallback never happens. */
  lemma RequestCost(cfg: PoolConfig, cs: Clusters, req: Request, hash: KeyHash)
    requires WellAddressed(cfg, cs, req.clusterId)
    ensures
      var h := Invoke(cfg, cs, req, hash);
      var c := Target(cfg, cs, req.clusterId);
      && !h.reply.NoCandidateTried?
      && HealthyIn(h.clusters, c) + h.failed <= HealthyIn(cs, c)
      && h.clusters.Keys == cs.Keys
      && (forall o :: o in cs && o != c ==> h.clusters[o] == cs[o])
      && (c in cs ==> h.clusters[c] == cs[c].(schedulers := h.clusters[c].schedulers))
  {
    var c := Target(cfg, cs, req.clusterId);
    TargetIsMarked(cfg, cs, req.clusterId);
    InvokeSelection(cfg, cs, req, hash);
    var sel := Ordered(cfg, cs, c, req.session, req.workload, hash);
    if sel.Candidates? {
      SelectPermutesHealthy(cs[c].schedulers, cs[c].strategy, req.session, req.workload, hash);
      var k := LeadingFailures(req.calls, |sel.list|);
      AfterMarksIsMarkedSet(cs, c, sel.list, k);
      MarksCost(cs[c].schedulers, sel.list, k);
    }
  }

  /** When every candidate fails, the caller gets the last candidate's error,
      nothing in the target is healthy any more, and the next selection says so. */
  lemma AllFailedLeavesNone(cfg: PoolConfig, cs: Clusters, req: Request, hash: KeyHash, session: string,
                            workload: string)
    requires WellAddressed(cfg, cs, req.clusterId)
    requires Invoke(cfg, cs, req, hash).reply.CallFailed?
    ensures
      var h := Invoke(cfg, cs, req, hash);
      var c := Target(cfg, cs, req.clusterId);
      && h.failed == HealthyIn(cs, c) && HealthyIn(h.clusters, c) == 0
      && Ordered(cfg, h.clusters, MarkedId(cfg, h.clusters, req.clusterId), session, workload, hash)
         == NoHealthySchedulers
  {
    var h := Invoke(cfg, cs, req, hash);
    var c := Target(cfg, cs, req.clusterId);
    TargetIsMarked(cfg, cs, req.clusterId);
    RequestCost(cfg, cs, req, hash);
    InvokeSelection(cfg, cs, req, hash);
    var sel := Ordered(cfg, cs, c, req.session, req.workload, hash);
    SelectPermutesHealthy(cs[c].schedulers, cs[c].strategy, req.session, req.workload, hash);
    CandidateCount(cs[c].schedulers, sel.list);
    SameKeysSameDefault(cfg, cs, h.clusters);
    assert HealthyOf(h.clusters[c].schedulers) == [];
    HealthyMembers(h.clusters[c].schedulers);
    SelectPermutesHealthy(h.clusters[c].schedulers, cs[c].strategy, session, workload, hash);
  }

  lemma CandidateCount(ss: seq<Scheduler>, list: seq<Scheduler>)
    requires forall x: Scheduler :: multiset(list)[x] == if x.healthy then multiset(ss)[x] else 0
    ensures |list| == |HealthyOf(ss)|
  {
    forall x: Scheduler ensures multiset(HealthyOf(ss))[x] == multiset(list)[x] { HealthyCount(ss, x); }
    SubmultisetLength(list, HealthyOf(ss));
    SubmultisetLength(HealthyOf(ss), list);
  }

  lemma SameKeysSameDefault(cfg: PoolConfig, cs: Clusters, cs': Clusters)
    requires cs'.Keys == cs.Keys
    ensures DefaultId(cfg, cs') == DefaultId(cfg, cs)
  {
  }

  ghost function TotalFailed(cfg: PoolConfig, cs: Clusters, reqs: seq<Request>, hash: KeyHash, c: string): nat
    decreases |reqs|
  {
    if reqs == [] then 0
    else
      var h := Invoke(cfg, cs, reqs[0], hash);
      (if Target(cfg, cs, reqs[0].clusterId) == c then h.failed
        else 0) + TotalFailed(cfg, h.clusters, reqs[1..], hash, c)
  }

  /** Between refreshes and merges, any sequence of requests makes at most as
      many failed attempts on a cluster as it had healthy entries. */
  lemma {:induction false} FailureBound(cfg: PoolConfig, cs: Clusters, reqs: seq<Request>, hash: KeyHash, c: string)
    requires forall i :: 0 <= i < |reqs| ==> WellAddressed(cfg, cs, reqs[i].clusterId)
    ensures TotalFailed(cfg, cs, reqs, hash, c) <= HealthyIn(cs, c)
    decreases |reqs|
  {
    if reqs != [] {
      var h := Invoke(cfg, cs, reqs[0], hash);
      RequestCost(cfg, cs, reqs[0], hash);
      SameKeysSameDefault(cfg, cs, h.clusters);
      FailureBound(cfg, h.clusters, reqs[1..], hash, c);
    }
  }

  /** Without the address condition a request that selects from one cluster and
      marks another leaves its target as it was. */
  lemma MisaddressedRequestForgets(cfg: PoolConfig, cs: Clusters, req: Request, hash: KeyHash)
    requires !WellAddressed(cfg, cs, req.clusterId)
    ensures
      var h := Invoke(cfg, cs, req, hash);
      var c := Target(cfg, cs, req.clusterId);
      c in cs ==> c in h.clusters && h.clusters[c] == cs[c]
  {
    var id := MarkedId(cfg, cs, req.clusterId);
    var sel := Ordered(cfg, cs, id, req.session, req.workload, hash);
    TargetIsMarked(cfg, cs, req.clusterId);
    if sel.Candidates? {
      AfterMarksIsMarkedSet(cs, id, sel.list, LeadingFailures(req.calls, |sel.list|));
    }
  }

  /** A request in which everything fails takes its candidates out of rotation
      if and only if it is well addressed. */
  lemma FailuresStickIff(cfg: PoolConfig, cs: Clusters, req: Request, hash: KeyHash)
    requires Invoke(cfg, cs, req, hash).reply.CallFailed?
    ensures
      var h := Invoke(cfg, cs, req, hash);
      HealthyIn(h.clusters, Target(cfg, cs, req.clusterId)) == 0 <==> WellAddressed(cfg, cs, req.clusterId)
  {
    InvokeSelection(cfg, cs, req, hash);
    var c := Target(cfg, cs, req.clusterId);
    var sel := Ordered(cfg, cs, MarkedId(cfg, cs, req.clusterId), req.session, req.workload, hash);
    SelectPermutesHealthy(cs[c].schedulers, cs[c].strategy, req.session, req.workload, hash);
    CandidateCount(cs[c].schedulers, sel.list);
    if WellAddressed(cfg, cs, req.clusterId) {
      AllFailedLeavesNone(cfg, cs, req, hash, "", "");
    } else {
      MisaddressedRequestForgets(cfg, cs, req, hash);
    }
  }

  // ---------------------------------------------------- exactly when the bound holds

  /** Some scheduler can be tried for requests to this cluster ID. */
  ghost predicate Selectable(cfg: PoolConfig, cs: Clusters, id: string, hash: KeyHash) {
    Ordered(cfg, cs, MarkedId(cfg, cs, id), "", "", hash).Candidates?
  }

  ghost predicate AllFor(reqs: seq<Request>, id: string) {
    forall i :: 0 <= i < |reqs| ==> reqs[i].clusterId == id
  }

  /** Whether there are candidates does not depend on the routing keys, and there
      are as many as healthy entries. */
  lemma CandidatesForAnyKeys(cfg: PoolConfig, cs: Clusters, id: string, session: string, workload: string,
                             hash: KeyHash)
    ensures
      var sel := Ordered(cfg, cs, MarkedId(cfg, cs, id), session, workload, hash);
      && (sel.Candidates? <==> Selectable(cfg, cs, id, hash))
      && (sel.Candidates? ==> |sel.list| == HealthyIn(cs, Target(cfg, cs, id)) > 0)
  {
    var c := Target(cfg, cs, id);
    if c in cs {
      var ss, strategy := cs[c].schedulers, cs[c].strategy;
      SelectPermutesHealthy(ss, strategy, session, workload, hash);
      SelectPermutesHealthy(ss, strategy, "", "", hash);
      var sel := Select(ss, strategy, session, workload, hash);
      if sel.Candidates? { CandidateCount(ss, sel.list); }
    }
  }

  lemma {:induction false} NothingToTry(cfg: PoolConfig, cs: Clusters, reqs: seq<Request>, hash: KeyHash,
                                        id: string, c: string)
    requires AllFor(reqs, id) && !Selectable(cfg, cs, id, hash)
    ensures TotalFailed(cfg, cs, reqs, hash, c) == 0
    decreases |reqs|
  {
    if reqs != [] {
      CandidatesForAnyKeys(cfg, cs, id, reqs[0].session, reqs[0].workload, hash);
      NothingToTry(cfg, cs, reqs[1..], hash, id, c);
    }
  }

  /** A request whose calls all fail costs as many attempts as the target has
      healthy entries. */
  lemma AllCallsFail(cfg: PoolConfig, cs: Clusters, req: Request, hash: KeyHash)
    requires Selectable(cfg, cs, req.clusterId, hash) && forall j :: req.calls(j).Failure?
    ensures Invoke(cfg, cs, req, hash).failed == HealthyIn(cs, Target(cfg, cs, req.clusterId)) > 0
  {
    CandidatesForAnyKeys(cfg, cs, req.clusterId, req.session, req.workload, hash);
  }

  /** A misaddressed request whose calls all fail can be repeated at the same cost. */
  lemma FailsAgain(cfg: PoolConfig, cs: Clusters, req: Request, hash: KeyHash)
    requires !WellAddressed(cfg, cs, req.clusterId) && Selectable(cfg, cs, req.clusterId, hash)
    requires forall j :: req.calls(j).Failure?
    ensures
      var c := Target(cfg, cs, req.clusterId);
      TotalFailed(cfg, cs, [req, req], hash, c) == 2 * HealthyIn(cs, c) > HealthyIn(cs, c)
  {
    var id := req.clusterId;
    var h, c := Invoke(cfg, cs, req, hash), Target(cfg, cs, id);
    AllCallsFail(cfg, cs, req, hash);
    MisaddressedRequestForgets(cfg, cs, req, hash);
    InvokeKeepsKeys(cfg, cs, req, hash);
    SameKeysSameDefault(cfg, cs, h.clusters);
    assert c in cs by { CandidatesForAnyKeys(cfg, cs, id, "", "", hash); }
    assert Selectable(cfg, h.clusters, id, hash) && Target(cfg, h.clusters, id) == c;
    AllCallsFail(cfg, h.clusters, req, hash);
    assert [req, req][1..] == [req] && [req][1..] == [];
    assert TotalFailed(cfg, h.clusters, [req], hash, c) == HealthyIn(cs, c);
  }

  lemma InvokeKeepsKeys(cfg: PoolConfig, cs: Clusters, req: Request, hash: KeyHash)
    ensures Invoke(cfg, cs, req, hash).clusters.Keys == cs.Keys
  {
    var id := MarkedId(cfg, cs, req.clusterId);
    var sel := Ordered(cfg, cs, id, req.session, req.workload, hash);
    if sel.Candidates? {
      AfterMarksIsMarkedSet(cs, id, sel.list, LeadingFailures(req.calls, |sel.list|));
    }
  }

  ghost predicate Bounded(cfg: PoolConfig, cs: Clusters, reqs: seq<Request>, hash: KeyHash, c: string) {
    TotalFailed(cfg, cs, reqs, hash, c) <= HealthyIn(cs, c)
  }

  lemma BoundHolds(cfg: PoolConfig, cs: Clusters, reqs: seq<Request>, hash: KeyHash, id: string, c: string)
    requires AllFor(reqs, id) && (WellAddressed(cfg, cs, id) || !Selectable(cfg, cs, id, hash))
    ensures Bounded(cfg, cs, reqs, hash, c)
  {
    if WellAddressed(cfg, cs, id) {
      FailureBound(cfg, cs, reqs, hash, c);
    } else {
      NothingToTry(cfg, cs, reqs, hash, id, c);
    }
  }

  lemma BoundBreaks(cfg: PoolConfig, cs: Clusters, id: string, hash: KeyHash) returns (reqs: seq<Request>)
    requires !WellAddressed(cfg, cs, id) && Selectable(cfg, cs, id, hash)
    ensures AllFor(reqs, id) && !Bounded(cfg, cs, reqs, hash, Target(cfg, cs, id))
  {
    var req := Request(id, "", "", _ => Failure(""));
    FailsAgain(cfg, cs, req, hash);
    reqs := [req, req];
  }

  /** Over all sequences of requests for one cluster ID, failed attempts stay within
      the healthy entries if and only if the ID is well addressed or there is
      nothing to try. */
  lemma FailureBoundIff(cfg: PoolConfig, cs: Clusters, id: string, hash: KeyHash)
    ensures
      (forall reqs :: AllFor(reqs, id) ==> Bounded(cfg, cs, reqs, hash, Target(cfg, cs, id))) <==>
      (WellAddressed(cfg, cs, id) || !Selectable(cfg, cs, id, hash))
  {
    var c := Target(cfg, cs, id);
    if WellAddressed(cfg, cs, id) || !Selectable(cfg, cs, id, hash) {
      forall reqs | AllFor(reqs, id) ensures Bounded(cfg, cs, reqs, hash, c) {
        BoundHolds(cfg, cs, reqs, hash, id, c);
      }
    } else {
      var reqs := BoundBreaks(cfg, cs, id, hash);
    }
  }

  // ---------------------------------------------------------- at the controller

  /** A request as the controller receives it, with the three places that may name
      the cluster. */
  datatype Incoming = Incoming(
    param: string, header: string, query: string, session: string, workload: string, calls: nat -> Outcome)

  /** The first of the three that is not blank, trimmed. */
  function ResolveClusterId(req: Incoming): string {
    if TrimSpace(req.param) != "" then TrimSpace(req.param)
    else if TrimSpace(req.header) != "" then TrimSpace(req.header)
    else TrimSpace(req.query)
  }

  function Resolved(req: Incoming): Request {
    Request(ResolveClusterId(req), req.session, req.workload, req.calls)
  }

  /** The path parameter comes before the header and the header before the query. */
  lemma ResolveOrder(req: Incoming)
    ensures TrimSpace(req.param) != "" ==> ResolveClusterId(req) == TrimSpace(req.param)
    ensures TrimSpace(req.param) == "" && TrimSpace(req.header) != "" ==> ResolveClusterId(req) == TrimSpace(req.header)
    ensures TrimSpace(req.param) == "" && TrimSpace(req.header) == "" ==> ResolveClusterId(req) == TrimSpace(req.query)
  {
  }

  lemma TrimmedIsWellAddressed(cfg: PoolConfig, cs: Clusters, raw: string)
    ensures WellAddressed(cfg, cs, TrimSpace(raw))
  {
    TrimNothing(TrimSpace(raw));
  }

  /** Every request that comes through the controller marks the cluster it selects
      from. */
  lemma ResolvedIsWellAddressed(cfg: PoolConfig, cs: Clusters, req: Incoming)
    ensures WellAddressed(cfg, cs, Resolved(req).clusterId)
  {
    TrimmedIsWellAddressed(cfg, cs, req.param);
    TrimmedIsWellAddressed(cfg, cs, req.header);
    TrimmedIsWellAddressed(cfg, cs, req.query);
  }

  /** For every incoming request: failed attempts are paid for by entries turning
      unhealthy; and if all candidates fail, none is left and the next selection
      says so. */
  lemma IncomingCost(cfg: PoolConfig, cs: Clusters, req: Incoming, hash: KeyHash, session: string, workload: string)
    ensures
      var h := Invoke(cfg, cs, Resolved(req), hash);
      var c := Target(cfg, cs, ResolveClusterId(req));
      && HealthyIn(h.clusters, c) + h.failed <= HealthyIn(cs, c)
      && h.clusters.Keys == cs.Keys
      && (forall o :: o in cs && o != c ==> h.clusters[o] == cs[o])
      && (h.reply.CallFailed? ==>
            && h.failed == HealthyIn(cs, c) && HealthyIn(h.clusters, c) == 0
            && Ordered(cfg, h.clusters, MarkedId(cfg, h.clusters, ResolveClusterId(req)), session, workload, hash)
               == NoHealthySchedulers)
  {
    ResolvedIsWellAddressed(cfg, cs, req);
    RequestCost(cfg, cs, Resolved(req), hash);
    if Invoke(cfg, cs, Resolved(req), hash).reply.CallFailed? {
      AllFailedLeavesNone(cfg, cs, Resolved(req), hash, session, workload);
    }
  }

  function AllResolved(reqs: seq<Incoming>): (r: seq<Request>)
    ensures |r| == |reqs| && forall i :: 0 <= i < |reqs| ==> r[i] == Resolved(reqs[i])
  {
    seq(|reqs|, i requires 0 <= i < |reqs| => Resolved(reqs[i]))
  }

  /** Any sequence of incoming requests, between refreshes and merges, makes at
      most as many failed attempts on a cluster as it had healthy entries. */
  lemma IncomingFailureBound(cfg: PoolConfig, cs: Clusters, reqs: seq<Incoming>, hash: KeyHash, c: string)
    ensures TotalFailed(cfg, cs, AllResolved(reqs), hash, c) <= HealthyIn(cs, c)
  {
    var rs := AllResolved(reqs);
    forall i | 0 <= i < |rs| ensures WellAddressed(cfg, cs, rs[i].clusterId) {
      ResolvedIsWellAddressed(cfg, cs, reqs[i]);
    }
    FailureBound(cfg, cs, rs, hash, c);
  }

  // ------------------------------------------------------- a request that forgets

  lemma BlankIsBlank()
    ensures TrimSpace(" ") == "" && TrimSpace("") == ""
  {
    assert TrimLeft(" ") == TrimLeft("") == "";
  }

  const BARE := PoolConfig("", [])
  const ONLY := Scheduler("s", "x", false, true, 0)
  const ONE_CLUSTER: Clusters := map["a" := Cluster("a", "a", [ONLY], LeaderOnly)]

  function BlankRequest(): Request {
    Request(" ", "", "", _ => Failure("down"))
  }

  lemma BlankTarget()
    ensures DefaultId(BARE, ONE_CLUSTER) == "a" && Target(BARE, ONE_CLUSTER, " ") == "a"
    ensures !WellAddressed(BARE, ONE_CLUSTER, " ") && MarkedId(BARE, ONE_CLUSTER, " ") == " "
  {
    BlankIsBlank();
    assert ONE_CLUSTER.Keys == {"a"};
  }

  lemma BlankSelection(hash: KeyHash)
    ensures
      var sel := Ordered(BARE, ONE_CLUSTER, " ", "", "", hash);
      sel.Candidates? && |sel.list| == 1 && HealthyIn(ONE_CLUSTER, "a") == 1
  {
    BlankTarget();
    assert HealthyOf([ONLY]) == [ONLY] by { assert [ONLY][..0] == []; }
    SelectPermutesHealthy([ONLY], LeaderOnly, "", "", hash);
    CandidateCount([ONLY], Ordered(BARE, ONE_CLUSTER, " ", "", "", hash).list);
  }

  /** Past the controller, a cluster ID of one blank: every call fails and the one
      scheduler stays in rotation. */
  lemma BlankRequestForgets(hash: KeyHash)
    ensures !WellAddressed(BARE, ONE_CLUSTER, " ") && Target(BARE, ONE_CLUSTER, " ") == "a"
    ensures
      var h := Invoke(BARE, ONE_CLUSTER, BlankRequest(), hash);
      h.reply.CallFailed? && h.failed == 1 && h.clusters == ONE_CLUSTER && HealthyIn(ONE_CLUSTER, "a") == 1
  {
    BlankTarget();
    BlankSelection(hash);
    assert " " !in ONE_CLUSTER;
    MisaddressedKeeps(BARE, ONE_CLUSTER, BlankRequest(), hash);
  }

  /** So without the address condition the bound fails: two such requests make two
      failed attempts on a cluster with one healthy entry. */
  lemma BlankRequestsExceedBound(hash: KeyHash)
    ensures
      var req := BlankRequest();
      TotalFailed(BARE, ONE_CLUSTER, [req, req], hash, "a") == 2 && HealthyIn(ONE_CLUSTER, "a") == 1
  {
    var req := BlankRequest();
    BlankRequestForgets(hash);
    assert [req, req][1..] == [req] && [req][1..] == [];
    assert TotalFailed(BARE, ONE_CLUSTER, [req], hash, "a") == 1;
  }

  lemma MisaddressedKeeps(cfg: PoolConfig, cs: Clusters, req: Request, hash: KeyHash)
    requires MarkedId(cfg, cs, req.clusterId) !in cs
    ensures Invoke(cfg, cs, req, hash).clusters == cs
  {
    var id := MarkedId(cfg, cs, req.clusterId);
    var sel := Ordered(cfg, cs, id, req.session, req.workload, hash);
    if sel.Candidates? {
      AfterMarksIsMarkedSet(cs, id, sel.list, LeadingFailures(req.calls, |sel.list|));
    }
  }
}
