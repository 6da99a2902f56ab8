/** Runs of the scheduler pool: any order of merges, health refreshes and
    request-failure marks. */
module PoolRuns {
  import opened Text
  import opened PoolTypes
  import opened Merge
  import opened Routing
  import opened Pool

  datatype Step =
    | MergeStep(discovery: Discovery, keys: KeyMap)
    | RefreshStep(probes: Probes)
    | MarkStep(id: string, address: string)

  ghost function Apply(cfg: PoolConfig, cs: Clusters, step: Step): Clusters {
    match step
    case MergeStep(discovery, keys) => AfterMerge(cfg, cs, discovery, keys)
    case RefreshStep(probes) => AfterRefresh(cs, probes)
    case MarkStep(id, address) => AfterMark(cs, id, address)
  }

  /** `states` is what the pool goes through when it performs `steps`. */
  ghost predicate IsRun(cfg: PoolConfig, steps: seq<Step>, states: seq<Clusters>) {
    && |states| == |steps| + 1
    && forall j :: 0 <= j < |steps| ==> states[j + 1] == Apply(cfg, states[j], steps[j])
  }

  ghost predicate Entry(cs: Clusters, c: string, k: nat) {
    c in cs && k < |cs[c].schedulers|
  }

  ghost predicate Unprobed(cs: Clusters) {
    forall c, k: nat :: Entry(cs, c, k) ==> !cs[c].schedulers[k].healthy
  }

  lemma {:induction false} InitialUnprobed(clusters: seq<StaticCluster>)
    ensures Unprobed(InitialClusters(clusters))
  {
    if clusters != [] { InitialUnprobed(clusters[..|clusters| - 1]); }
  }

  ghost predicate Listed(cs: Clusters, c: string, a: string) {
    c in cs && HasAddress(cs[c].schedulers, a)
  }

  ghost predicate Touches(step: Step, c: string, a: string) {
    step.RefreshStep? || (step.MarkStep? && step.id == c && step.address == a)
  }

  /** Step `i` was a refresh; up to state `n` the address has stayed listed in
      the cluster and no further refresh and no mark for it has happened. */
  ghost predicate UndisturbedSince(steps: seq<Step>, states: seq<Clusters>, i: nat, n: nat, c: string, a: string) {
    && i < n <= |steps| < |states| && steps[i].RefreshStep?
    && (forall j :: i < j < n ==> !Touches(steps[j], c, a))
    && (forall j :: i < j <= n ==> Listed(states[j], c, a))
  }

  /** A healthy entry after a merge was there before, with the same address,
      flag and last-seen time. */
  lemma MergeKeepsHealth(cfg: PoolConfig, cs: Clusters, discovery: Discovery, keys: KeyMap, c: string, k: nat)
    returns (k0: nat)
    requires Entry(AfterMerge(cfg, cs, discovery, keys), c, k)
    requires AfterMerge(cfg, cs, discovery, keys)[c].schedulers[k].healthy
    ensures Entry(cs, c, k0)
    ensures
      var s0, s := cs[c].schedulers[k0], AfterMerge(cfg, cs, discovery, keys)[c].schedulers[k];
      s0.healthy && s0.address == s.address && s0.lastSeen == s.lastSeen
  {
    k0 := k;
    if !(discovery.LookupFailed? || discovery.addresses == []) && c == MergeTarget(cfg, cs) {
      var ss := ClusterOrNew(cs, c).schedulers;
      var ds, statics := discovery.addresses, StaticAddresses(cfg.clusters, c);
      var added := MergedShape(ss, ds, keys, statics);
      var s := Merged(ss, ds, keys, statics)[k];
      var kept := Retain(AllRenamed(ss, ds), ds, statics);
      RetainMembers(AllRenamed(ss, ds), ds, statics);
      assert forall j :: 0 <= j < |added| ==> !added[j].healthy;
      assert s == kept[k] && s in AllRenamed(ss, ds);
      k0 :| 0 <= k0 < |ss| && AllRenamed(ss, ds)[k0] == s;
    }
  }

  /** The same for every step that is not a refresh; a mark for the entry's
      address would have cleared its flag. */
  lemma StepKeepsHealth(cfg: PoolConfig, cs: Clusters, step: Step, c: string, k: nat) returns (k0: nat)
    requires !step.RefreshStep? && Entry(Apply(cfg, cs, step), c, k) && Apply(cfg, cs, step)[c].schedulers[k].healthy
    ensures Entry(cs, c, k0)
    ensures
      var s0, s := cs[c].schedulers[k0], Apply(cfg, cs, step)[c].schedulers[k];
      s0.healthy && s0.address == s.address && s0.lastSeen == s.lastSeen && !Touches(step, c, s.address)
  {
    k0 := k;
    if step.MergeStep? { k0 := MergeKeepsHealth(cfg, cs, step.discovery, step.keys, c, k); }
  }

  /** Every healthy entry is backed by the latest health refresh: it probed an
      entry at this address as up, at the entry's last-seen time, and since then
      the address stayed listed and was not marked.  So a failed probe or a mark
      always takes effect, and a re-added entry starts unproven. */
  lemma {:induction false} HealthyIsProven(cfg: PoolConfig, steps: seq<Step>, states: seq<Clusters>, n: nat,
                                           c: string, k: nat)
    returns (i: nat, p: nat)
    requires IsRun(cfg, steps, states) && Unprobed(states[0]) && n <= |steps|
    requires Entry(states[n], c, k) && states[n][c].schedulers[k].healthy
    ensures
      var s := states[n][c].schedulers[k];
      && UndisturbedSince(steps, states, i, n, c, s.address)
      && Entry(states[i], c, p) && states[i][c].schedulers[p].address == s.address
      && steps[i].probes(c, p) == Up(s.lastSeen)
    decreases n
  {
    assert n > 0;
    var before, last := states[n - 1], steps[n - 1];
    var s := states[n][c].schedulers[k];
    assert states[n] == Apply(cfg, before, last) && Listed(states[n], c, s.address);
    if last.RefreshStep? {
      i, p := n - 1, k;
      RefreshedEntry(before, last.probes, c, k);
    } else {
      var k0 := StepKeepsHealth(cfg, before, last, c, k);
      i, p := HealthyIsProven(cfg, steps, states, n - 1, c, k0);
      UndisturbedLonger(steps, states, i, n, c, s.address);
    }
  }

  lemma RefreshedEntry(cs: Clusters, probes: Probes, c: string, k: nat)
    requires Entry(AfterRefresh(cs, probes), c, k)
    ensures Entry(cs, c, k) && AfterRefresh(cs, probes)[c].schedulers[k] == Probed(cs[c].schedulers[k], probes(c, k))
  {
  }

  lemma UndisturbedLonger(steps: seq<Step>, states: seq<Clusters>, i: nat, n: nat, c: string, a: string)
    requires 0 < n <= |steps| < |states| && UndisturbedSince(steps, states, i, n - 1, c, a)
    requires !Touches(steps[n - 1], c, a) && Listed(states[n], c, a)
    ensures UndisturbedSince(steps, states, i, n, c, a)
  {
  }

  ghost predicate AllHealthyAt(cs: Clusters, c: string, a: string) {
    forall k: nat :: Entry(cs, c, k) && cs[c].schedulers[k].address == a ==> cs[c].schedulers[k].healthy
  }

  lemma MergeKeepsAllHealthy(cfg: PoolConfig, cs: Clusters, discovery: Discovery, keys: KeyMap, c: string, a: string)
    requires AllHealthyAt(cs, c, a) && Listed(cs, c, a)
    ensures AllHealthyAt(AfterMerge(cfg, cs, discovery, keys), c, a)
  {
    if !(discovery.LookupFailed? || discovery.addresses == []) && c == MergeTarget(cfg, cs) {
      var ss := ClusterOrNew(cs, c).schedulers;
      var ds, statics := discovery.addresses, StaticAddresses(cfg.clusters, c);
      var added := MergedShape(ss, ds, keys, statics);
      var m := Merged(ss, ds, keys, statics);
      var kept := Retain(AllRenamed(ss, ds), ds, statics);
      RetainMembers(AllRenamed(ss, ds), ds, statics);
      var w :| 0 <= w < |ss| && ss[w].address == a;
      forall j | 0 <= j < |added| ensures added[j].address != a { assert !Clash(keys, ss[w], added[j]); }
      forall k: nat | k < |m| && m[k].address == a ensures m[k].healthy {
        assert m[k] == kept[k] && m[k] in AllRenamed(ss, ds);
        var k0 :| 0 <= k0 < |ss| && AllRenamed(ss, ds)[k0] == m[k];
        assert Entry(cs, c, k0);
      }
    }
  }

  /** Conversely, an address probed as up stays healthy until it is dropped,
      marked or refreshed again. */
  lemma {:induction false} ProvenIsHealthy(cfg: PoolConfig, steps: seq<Step>, states: seq<Clusters>, i: nat, n: nat,
                                           c: string, a: string)
    requires IsRun(cfg, steps, states) && UndisturbedSince(steps, states, i, n, c, a)
    requires forall p: nat ::
      Entry(states[i], c, p) && states[i][c].schedulers[p].address == a ==> steps[i].probes(c, p).Up?
    ensures AllHealthyAt(states[n], c, a)
    decreases n
  {
    var before, last := states[n - 1], steps[n - 1];
    assert states[n] == Apply(cfg, before, last);
    if last.RefreshStep? {
      forall k: nat | Entry(states[n], c, k) && states[n][c].schedulers[k].address == a
        ensures states[n][c].schedulers[k].healthy
      {
        RefreshedEntry(before, last.probes, c, k);
      }
    } else {
      ProvenIsHealthy(cfg, steps, states, i, n - 1, c, a);
      if last.MergeStep? { MergeKeepsAllHealthy(cfg, before, last.discovery, last.keys, c, a); }
      else { MarkKeepsAllHealthy(before, last.id, last.address, c, a); }
    }
  }

  lemma MarkKeepsAllHealthy(cs: Clusters, id: string, address: string, c: string, a: string)
    requires AllHealthyAt(cs, c, a) && !(id == c && address == a)
    ensures AllHealthyAt(AfterMark(cs, id, address), c, a)
  {
    forall k: nat | Entry(AfterMark(cs, id, address), c, k) && AfterMark(cs, id, address)[c].schedulers[k].address == a
      ensures AfterMark(cs, id, address)[c].schedulers[k].healthy
    {
      assert Entry(cs, c, k);
    }
  }

  /** Whatever a selection returns is an entry of the chosen cluster that the
      latest refresh proved and nothing has disturbed since. */
  lemma SelectionIsProven(cfg: PoolConfig, steps: seq<Step>, states: seq<Clusters>, n: nat,
                          id: string, session: string, workload: string, hash: KeyHash, x: Scheduler)
    returns (i: nat, p: nat)
    requires IsRun(cfg, steps, states) && Unprobed(states[0]) && n <= |steps|
    requires Ordered(cfg, states[n], id, session, workload, hash).Candidates?
    requires x in Ordered(cfg, states[n], id, session, workload, hash).list
    ensures
      var c := SelectedId(cfg, states[n], id);
      && UndisturbedSince(steps, states, i, n, c, x.address)
      && Entry(states[i], c, p) && states[i][c].schedulers[p].address == x.address
      && steps[i].probes(c, p) == Up(x.lastSeen)
  {
    var c := SelectedId(cfg, states[n], id);
    var ss := states[n][c].schedulers;
    var r := Ordered(cfg, states[n], id, session, workload, hash);
    SelectPermutesHealthy(ss, states[n][c].strategy, session, workload, hash);
    assert x in multiset(r.list) && x in multiset(ss);
    var k :| 0 <= k < |ss| && ss[k] == x;
    assert Entry(states[n], c, k);
    i, p := HealthyIsProven(cfg, steps, states, n, c, k);
  }

  // ----------------------------------------------------------- default cluster

  /** The only configuration in which a merge can move the default: a cluster
      with the empty ID is the default while the configured default names the
      cluster that discovery would create. */
  ghost predicate DefaultCanMove(cfg: PoolConfig, cs: Clusters) {
    DefaultId(cfg, cs) == "" && TrimSpace(cfg.defaultClusterId) == DISCOVERED_CLUSTER
  }

  lemma DefaultStep(cfg: PoolConfig, cs: Clusters, step: Step)
    requires cs != map[] && !DefaultCanMove(cfg, cs)
    ensures
      var cs' := Apply(cfg, cs, step);
      cs' != map[] && DefaultId(cfg, cs') == DefaultId(cfg, cs)
  {
    var cs' := Apply(cfg, cs, step);
    var t := TrimSpace(cfg.defaultClusterId);
    if cs'.Keys == cs.Keys {
    } else {
      assert step.MergeStep? && DefaultId(cfg, cs) == "";
      assert cs'.Keys == cs.Keys + {DISCOVERED_CLUSTER};
      assert t !in cs' || t == "";
      LexLeAntisymmetric(Least(cs'.Keys), "");
    }
  }

  lemma {:induction false} DefaultNeverMoves(cfg: PoolConfig, steps: seq<Step>, states: seq<Clusters>, n: nat)
    requires IsRun(cfg, steps, states) && n <= |steps|
    requires states[0] != map[] && !DefaultCanMove(cfg, states[0])
    ensures states[n] != map[] && DefaultId(cfg, states[n]) == DefaultId(cfg, states[0])
    ensures DefaultId(cfg, states[n]) in states[n]
  {
    if n > 0 {
      DefaultNeverMoves(cfg, steps, states, n - 1);
      DefaultStep(cfg, states[n - 1], steps[n - 1]);
      assert states[n] == Apply(cfg, states[n - 1], steps[n - 1]);
    }
  }

  lemma DefaultMoves(cfg: PoolConfig, cs: Clusters, step: Step)
    requires DefaultCanMove(cfg, cs)
    requires step.MergeStep? && step.discovery.Found? && step.discovery.addresses != []
    ensures DefaultId(cfg, Apply(cfg, cs, step)) == DISCOVERED_CLUSTER != DefaultId(cfg, cs)
  {
    assert DISCOVERED_CLUSTER in Apply(cfg, cs, step);
  }

  lemma MovingRun(cfg: PoolConfig, cs: Clusters, step: Step) returns (steps: seq<Step>, states: seq<Clusters>)
    requires DefaultCanMove(cfg, cs)
    requires step.MergeStep? && step.discovery.Found? && step.discovery.addresses != []
    ensures IsRun(cfg, steps, states) && states[0] == cs && DefaultId(cfg, states[|steps|]) != DefaultId(cfg, cs)
  {
    DefaultMoves(cfg, cs, step);
    steps, states := [step], [cs, Apply(cfg, cs, step)];
  }

  /** Once any cluster exists, the default cluster never changes, over every
      run, exactly outside that configuration. */
  lemma DefaultStableIff(cfg: PoolConfig, cs: Clusters)
    requires cs != map[]
    ensures !DefaultCanMove(cfg, cs) <==>
            forall steps, states :: IsRun(cfg, steps, states) && states[0] == cs ==>
              DefaultId(cfg, states[|steps|]) == DefaultId(cfg, cs)
  {
    if DefaultCanMove(cfg, cs) {
      var steps, states := MovingRun(cfg, cs, MergeStep(Found([""]), a => []));
      assert IsRun(cfg, steps, states) && states[0] == cs;
    } else {
      forall steps, states | IsRun(cfg, steps, states) && states[0] == cs
        ensures DefaultId(cfg, states[|steps|]) == DefaultId(cfg, cs)
      {
        DefaultNeverMoves(cfg, steps, states, |steps|);
      }
    }
  }

  /** That configuration can be written: a cluster with the empty ID beside the
      default `cluster-discovered`. */
  lemma DefaultCanMoveAtStart(schedulers: seq<StaticScheduler>)
    ensures
      var cfg := PoolConfig(DISCOVERED_CLUSTER, [StaticCluster("", "", schedulers, "")]);
      DefaultCanMove(cfg, InitialClusters(cfg.clusters))
  {
    var only := [StaticCluster("", "", schedulers, "")];
    assert only[..0] == [];
    assert InitialClusters(only).Keys == {""};
    assert DISCOVERED_CLUSTER[0] == 'c' && DISCOVERED_CLUSTER[|DISCOVERED_CLUSTER| - 1] == 'd';
    TrimNothing(DISCOVERED_CLUSTER);
  }

  /** Starting with no cluster, the first merge that finds anything creates the
      discovered cluster and makes it the default for good. */
  lemma BootstrapDefault(cfg: PoolConfig, steps: seq<Step>, states: seq<Clusters>, discovery: Discovery, keys: KeyMap)
    requires discovery.Found? && discovery.addresses != []
    requires IsRun(cfg, steps, states) && states[0] == AfterMerge(cfg, map[], discovery, keys)
    ensures DefaultId(cfg, states[|steps|]) == DISCOVERED_CLUSTER
  {
    assert states[0].Keys == {DISCOVERED_CLUSTER};
    DefaultNeverMoves(cfg, steps, states, |steps|);
  }
}
