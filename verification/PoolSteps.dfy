/** What each operation of the scheduler pool does to the cluster map, entry by
    entry and field by field. */
module PoolSteps {
  import opened Text
  import opened PoolTypes
  import opened Merge
  import opened Routing
  import opened Pool

  // ------------------------------------------------------------------- the start

  lemma StrategyWords(configured: string)
    ensures
      var s, w := ParseStrategy(configured), TrimSpace(configured);
      && (s == LeaderOnly <==> w == "" || w == "leader-only")
      && (s == Sticky <==> w == "sticky") && (s == Shard <==> w == "shard")
      && (s.Unsupported? ==> s.name == w)
  {
    assert "sticky"[1] == 't' && "shard"[1] == 'h' && "leader-only"[1] == 'e';
  }

  /** Cluster `n` of the configuration is the last one with its ID. */
  ghost predicate LastNamed(clusters: seq<StaticCluster>, n: nat) {
    n < |clusters| && forall m :: n < m < |clusters| ==> clusters[m].id != clusters[n].id
  }

  lemma {:induction false} InitialKeys(clusters: seq<StaticCluster>, id: string)
    ensures id in InitialClusters(clusters) <==> exists c :: c in clusters && c.id == id
  {
    if clusters != [] {
      var init, last := clusters[..|clusters| - 1], clusters[|clusters| - 1];
      InitialKeys(init, id);
      assert clusters == init + [last];
    }
  }

  lemma {:induction false} InitialAt(clusters: seq<StaticCluster>, n: nat)
    requires LastNamed(clusters, n)
    ensures clusters[n].id in InitialClusters(clusters)
    ensures InitialClusters(clusters)[clusters[n].id] == ConfiguredCluster(clusters[n])
  {
    var k := |clusters| - 1;
    if n < k {
      assert forall m :: 0 <= m < k ==> clusters[..k][m] == clusters[m];
      InitialAt(clusters[..k], n);
    }
  }

  /** At the start exactly the configured IDs name clusters, each the last one
      configured under it, with its schedulers in order, not yet healthy. */
  lemma InitialExact(clusters: seq<StaticCluster>, n: nat)
    requires LastNamed(clusters, n)
    ensures clusters[n].id in InitialClusters(clusters)
    ensures forall id :: id in InitialClusters(clusters) ==> exists c :: c in clusters && c.id == id
    ensures
      var c, r := clusters[n], InitialClusters(clusters)[clusters[n].id];
      && r.id == c.id && r.name == c.name && r.strategy == ParseStrategy(c.strategy)
      && |r.schedulers| == |c.schedulers|
      && forall i :: 0 <= i < |c.schedulers| ==>
           var s := c.schedulers[i];
           r.schedulers[i] == Scheduler(s.id, s.address, s.isLeader, false, 0)
  {
    InitialAt(clusters, n);
    forall id | id in InitialClusters(clusters) ensures exists c :: c in clusters && c.id == id {
      InitialKeys(clusters, id);
    }
  }

  lemma DefaultExact(cfg: PoolConfig, cs: Clusters)
    ensures
      var d, t := DefaultId(cfg, cs), TrimSpace(cfg.defaultClusterId);
      && (t != "" && t in cs ==> d == t)
      && ((t == "" || t !in cs) && cs != map[] ==> d in cs && forall k :: k in cs ==> LexLe(d, k))
      && ((t == "" || t !in cs) && cs == map[] ==> d == "")
  {
  }

  // ----------------------------------------------------------- refresh and mark

  /** A refresh sets health and last-seen time from the entry's own probe and
      keeps everything else: clusters, strategies, order, IDs, addresses and
      leader flags. */
  lemma RefreshExact(cs: Clusters, probes: Probes, c: string)
    requires c in cs
    ensures
      var cs' := AfterRefresh(cs, probes);
      && cs'.Keys == cs.Keys && |cs'[c].schedulers| == |cs[c].schedulers|
      && cs'[c].id == cs[c].id && cs'[c].name == cs[c].name && cs'[c].strategy == cs[c].strategy
      && forall i :: 0 <= i < |cs[c].schedulers| ==>
           var s, s', p := cs[c].schedulers[i], cs'[c].schedulers[i], probes(c, i);
           && s'.id == s.id && s'.address == s.address && s'.isLeader == s.isLeader
           && s'.healthy == p.Up? && s'.lastSeen == if p.Up? then p.at else s.lastSeen
  {
  }

  /** A mark takes the health of the entries at the address in that cluster, and
      of nothing else. */
  lemma MarkExact(cs: Clusters, id: string, address: string, c: string)
    requires c in cs
    ensures
      var cs' := AfterMark(cs, id, address);
      && cs'.Keys == cs.Keys && |cs'[c].schedulers| == |cs[c].schedulers|
      && cs'[c].id == cs[c].id && cs'[c].name == cs[c].name && cs'[c].strategy == cs[c].strategy
      && forall i :: 0 <= i < |cs[c].schedulers| ==>
           var s, s' := cs[c].schedulers[i], cs'[c].schedulers[i];
           && s'.id == s.id && s'.address == s.address && s'.isLeader == s.isLeader && s'.lastSeen == s.lastSeen
           && s'.healthy == (s.healthy && !(c == id && s.address == address))
  {
  }

  // ------------------------------------------------------------------- the merge

  /** The configuration lists address `a` for cluster `id`. */
  ghost predicate ConfiguredFor(clusters: seq<StaticCluster>, id: string, a: string) {
    exists c, s :: c in clusters && c.id == id && s in c.schedulers && s.address == a
  }

  lemma {:induction false} StaticExact(clusters: seq<StaticCluster>, id: string, a: string)
    ensures a in StaticAddresses(clusters, id) <==> ConfiguredFor(clusters, id, a)
  {
    if clusters != [] {
      var init, last := clusters[..|clusters| - 1], clusters[|clusters| - 1];
      assert clusters == init + [last];
      StaticExact(init, id, a);
      if ConfiguredFor(init, id, a) {
        var c, s :| c in init && c.id == id && s in c.schedulers && s.address == a;
        assert c in clusters;
      }
      if last.id == id && a in (set s | s in last.schedulers :: s.address) {
        var s :| s in last.schedulers && s.address == a;
        assert last in clusters;
      }
      if ConfiguredFor(clusters, id, a) {
        var c, s :| c in clusters && c.id == id && s in c.schedulers && s.address == a;
        assert c in init || c == last;
      }
    }
  }

  /** The ID of a discovered entry: its address with colons and dots as dashes,
      behind a fixed prefix of eleven characters. */
  lemma {:induction false} DashedExact(a: string)
    ensures |Dashed(a)| == |a|
    ensures forall i :: 0 <= i < |a| ==> Dashed(a)[i] == if a[i] == ':' || a[i] == '.' then '-' else a[i]
  {
    if a != "" { DashedExact(a[1..]); }
  }

  lemma DiscoveredIdExact(a: string)
    ensures
      var id := DiscoveredId(a);
      && |id| == 11 + |a| && id[..11] == "discovered-"
      && forall i :: 0 <= i < |a| ==> id[11 + i] == if a[i] == ':' || a[i] == '.' then '-' else a[i]
  {
    DashedExact(a);
    assert |DISCOVERED_PREFIX| == 11;
  }

  /** An entry that a merge keeps: not made by discovery, still discovered, or
      configured. */
  ghost predicate Wanted(cfg: PoolConfig, id: string, ds: seq<string>, s: Scheduler) {
    !HasPrefix(s.id, "discovered-") || s.address in ds || ConfiguredFor(cfg.clusters, id, s.address)
  }

  /** What becomes of old entry `i`: the last one at a discovered address gets an
      ID if it has none. */
  ghost function Named(ss: seq<Scheduler>, i: nat, ds: seq<string>): Scheduler
    requires i < |ss|
  {
    if ss[i].id == "" && ss[i].address in ds && (forall j :: i < j < |ss| ==> ss[j].address != ss[i].address)
    then ss[i].(id := DiscoveredId(ss[i].address)) else ss[i]
  }

  lemma NamedIsRenamed(ss: seq<Scheduler>, i: nat, ds: seq<string>)
    requires i < |ss|
    ensures Named(ss, i, ds) == Renamed(ss, i, ds)
  {
    assert HasAddress(ss, ss[i].address);
  }

  ghost predicate IsNew(ss: seq<Scheduler>, ds: seq<string>, x: Scheduler) {
    && x.address in ds && !HasAddress(ss, x.address)
    && x.id == DiscoveredId(x.address) && !x.isLeader && !x.healthy && x.lastSeen == 0
  }

  /** What the list must offer for discovered address `d` to be listed after the
      merge. */
  ghost predicate Offers(cfg: PoolConfig, id: string, ss: seq<Scheduler>, ds: seq<string>, keys: KeyMap, d: string) {
    || HasAddress(ss, d) || !KeyTaken(ss, d, keys)
    || (exists i :: 0 <= i < |ss| && Wanted(cfg, id, ds, ss[i]) && Shares(keys, ss[i].address, d))
    || SharedBy(NewAddresses(ss, ds, keys), d, keys)
  }

  ghost predicate Increasing(pos: seq<nat>) {
    forall k, l :: 0 <= k < l < |pos| ==> pos[k] < pos[l]
  }

  /** The whole list after a merge: the wanted old entries in their order, at
      `pos`, then one new entry for each newly adopted address in the order of
      discovery. */
  ghost predicate InOrder(cfg: PoolConfig, id: string, ss: seq<Scheduler>, ds: seq<string>, keys: KeyMap,
                          r: seq<Scheduler>, pos: seq<nat>) {
    var news := NewAddresses(ss, ds, keys);
    && |r| == |pos| + |news| && Increasing(pos)
    && (forall k :: 0 <= k < |pos| ==> pos[k] < |ss| && r[k] == Named(ss, pos[k], ds))
    && (forall i: nat :: i < |ss| ==> (i in pos <==> Wanted(cfg, id, ds, ss[i])))
    && (forall k :: 0 <= k < |news| ==> r[|pos| + k].address == news[k] && IsNew(ss, ds, r[|pos| + k]))
  }

  /** The list of one cluster after a merge of the whole discovery result. */
  ghost predicate MergedFrom(cfg: PoolConfig, id: string, ss: seq<Scheduler>, ds: seq<string>, keys: KeyMap,
                             r: seq<Scheduler>) {
    && (forall d :: d in ds ==> (Covered(r, d, keys) <==> Offers(cfg, id, ss, ds, keys, d)))
    && (forall i :: 0 <= i < |ss| ==> (Named(ss, i, ds) in r <==> Wanted(cfg, id, ds, ss[i])))
    && (forall x :: x in r ==> IsNew(ss, ds, x) || exists i :: 0 <= i < |ss| && x == Named(ss, i, ds))
    && (exists pos :: InOrder(cfg, id, ss, ds, keys, r, pos))
  }

  lemma KeepIsWanted(cfg: PoolConfig, id: string, ds: seq<string>, s: Scheduler)
    ensures Keep(s, ds, StaticAddresses(cfg.clusters, id)) <==> Wanted(cfg, id, ds, s)
  {
    StaticExact(cfg.clusters, id, s.address);
  }

  lemma OffersIsLists(cfg: PoolConfig, id: string, ss: seq<Scheduler>, ds: seq<string>, keys: KeyMap, d: string)
    ensures Offers(cfg, id, ss, ds, keys, d) <==> Lists(ss, d, ds, keys, StaticAddresses(cfg.clusters, id))
  {
    forall i | 0 <= i < |ss|
      ensures Keep(ss[i], ds, StaticAddresses(cfg.clusters, id)) <==> Wanted(cfg, id, ds, ss[i])
    {
      KeepIsWanted(cfg, id, ds, ss[i]);
    }
  }

  lemma EntryOrigin(ss: seq<Scheduler>, ds: seq<string>, keys: KeyMap, statics: set<string>, x: Scheduler)
    requires x in Merged(ss, ds, keys, statics)
    ensures IsNew(ss, ds, x) || exists i :: 0 <= i < |ss| && x == Named(ss, i, ds)
  {
    var added := MergedShape(ss, ds, keys, statics);
    RetainMembers(AllRenamed(ss, ds), ds, statics);
    if x in added {
      var j :| 0 <= j < |added| && added[j] == x;
      assert x == NewEntry(x.address) && x.address in ds;
      assert forall i :: 0 <= i < |ss| ==> !Clash(keys, ss[i], added[j]);
    } else {
      var i :| 0 <= i < |ss| && AllRenamed(ss, ds)[i] == x;
      NamedIsRenamed(ss, i, ds);
    }
  }

  /** The flagged positions, in order. */
  function Positions(flags: seq<bool>): seq<nat> {
    if flags == [] then []
    else
      var n := |flags| - 1;
      Positions(flags[..n]) + if flags[n] then [n] else []
  }

  lemma {:induction false} PositionsSound(flags: seq<bool>, k: nat)
    requires k < |Positions(flags)|
    ensures Positions(flags)[k] < |flags| && flags[Positions(flags)[k]]
  {
    var n := |flags| - 1;
    if k < |Positions(flags[..n])| { PositionsSound(flags[..n], k); }
  }

  lemma {:induction false} PositionsComplete(flags: seq<bool>, i: nat)
    requires i < |flags| && flags[i]
    ensures i in Positions(flags)
  {
    var n := |flags| - 1;
    if i < n { PositionsComplete(flags[..n], i); }
  }

  lemma {:induction false} PositionsIncrease(flags: seq<bool>, k: nat, l: nat)
    requires k < l < |Positions(flags)|
    ensures Positions(flags)[k] < Positions(flags)[l]
  {
    var n := |flags| - 1;
    if l < |Positions(flags[..n])| {
      PositionsIncrease(flags[..n], k, l);
    } else {
      PositionsSound(flags[..n], k);
    }
  }

  lemma {:induction false} RetainAtPositions(ss: seq<Scheduler>, ds: seq<string>, statics: set<string>,
                                             flags: seq<bool>, k: nat)
    requires |flags| == |ss| && forall i :: 0 <= i < |ss| ==> flags[i] == Keep(ss[i], ds, statics)
    ensures |Retain(ss, ds, statics)| == |Positions(flags)|
    ensures k < |Positions(flags)| ==>
      Positions(flags)[k] < |ss| && Retain(ss, ds, statics)[k] == ss[Positions(flags)[k]]
  {
    if ss != [] {
      var n := |ss| - 1;
      RetainAtPositions(ss[..n], ds, statics, flags[..n], k);
    }
  }

  /** Positions of the entries that stay, in order. */
  lemma RetainedAt(ss: seq<Scheduler>, ds: seq<string>, statics: set<string>) returns (pos: seq<nat>)
    ensures |pos| == |Retain(ss, ds, statics)| && Increasing(pos)
    ensures forall k :: 0 <= k < |pos| ==> pos[k] < |ss| && Retain(ss, ds, statics)[k] == ss[pos[k]]
    ensures forall i: nat :: i < |ss| ==> (i in pos <==> Keep(ss[i], ds, statics))
  {
    var flags := seq(|ss|, i requires 0 <= i < |ss| => Keep(ss[i], ds, statics));
    pos := Positions(flags);
    RetainAtPositions(ss, ds, statics, flags, 0);
    forall k | 0 <= k < |pos|
      ensures pos[k] < |ss| && flags[pos[k]] && Retain(ss, ds, statics)[k] == ss[pos[k]]
    {
      RetainAtPositions(ss, ds, statics, flags, k);
      PositionsSound(flags, k);
    }
    forall k, l | 0 <= k < l < |pos| ensures pos[k] < pos[l] { PositionsIncrease(flags, k, l); }
    forall i: nat | i < |ss| && flags[i] ensures i in pos { PositionsComplete(flags, i); }
  }

  lemma KeptInOrder(cfg: PoolConfig, id: string, ss: seq<Scheduler>, ds: seq<string>) returns (pos: seq<nat>)
    ensures
      var kept := Retain(AllRenamed(ss, ds), ds, StaticAddresses(cfg.clusters, id));
      && |pos| == |kept| && Increasing(pos)
      && (forall k :: 0 <= k < |pos| ==> pos[k] < |ss| && kept[k] == Named(ss, pos[k], ds))
    ensures forall i: nat :: i < |ss| ==> (i in pos <==> Wanted(cfg, id, ds, ss[i]))
  {
    var statics, all := StaticAddresses(cfg.clusters, id), AllRenamed(ss, ds);
    pos := RetainedAt(all, ds, statics);
    forall i: nat | i < |ss|
      ensures all[i] == Named(ss, i, ds) && (Keep(all[i], ds, statics) <==> Wanted(cfg, id, ds, ss[i]))
    {
      NamedIsRenamed(ss, i, ds);
      KeepIsWanted(cfg, id, ds, ss[i]);
    }
  }

  lemma NewInOrder(ss: seq<Scheduler>, ds: seq<string>, keys: KeyMap, statics: set<string>)
    ensures
      var news := NewAddresses(ss, ds, keys);
      && Merged(ss, ds, keys, statics) == Retain(AllRenamed(ss, ds), ds, statics) + Entries(news)
      && forall k :: 0 <= k < |news| ==> IsNew(ss, ds, Entries(news)[k])
  {
    var news := NewAddresses(ss, ds, keys);
    AdoptAllNew(ss, ds, keys);
    var added := MergedShape(ss, ds, keys, statics);
    SameTail(AllRenamed(ss, ds), added, Entries(news));
    forall k | 0 <= k < |news| ensures IsNew(ss, ds, Entries(news)[k]) {
      assert added[k] == NewEntry(news[k]);
      assert forall i :: 0 <= i < |ss| ==> !Clash(keys, ss[i], added[k]);
    }
  }

  lemma SameTail(a: seq<Scheduler>, b: seq<Scheduler>, c: seq<Scheduler>)
    requires a + b == a + c
    ensures b == c
  {
    assert b == (a + b)[|a|..] && c == (a + c)[|a|..];
  }

  lemma MergeOrder(cfg: PoolConfig, id: string, ss: seq<Scheduler>, ds: seq<string>, keys: KeyMap)
    returns (pos: seq<nat>)
    ensures InOrder(cfg, id, ss, ds, keys, Merged(ss, ds, keys, StaticAddresses(cfg.clusters, id)), pos)
  {
    pos := KeptInOrder(cfg, id, ss, ds);
    NewInOrder(ss, ds, keys, StaticAddresses(cfg.clusters, id));
  }

  lemma MergedExact(cfg: PoolConfig, id: string, ss: seq<Scheduler>, ds: seq<string>, keys: KeyMap)
    ensures MergedFrom(cfg, id, ss, ds, keys, Merged(ss, ds, keys, StaticAddresses(cfg.clusters, id)))
  {
    var statics := StaticAddresses(cfg.clusters, id);
    var r := Merged(ss, ds, keys, statics);
    forall d | d in ds ensures Covered(r, d, keys) <==> Offers(cfg, id, ss, ds, keys, d) {
      ListedIff(ss, ds, keys, statics, d);
      OffersIsLists(cfg, id, ss, ds, keys, d);
    }
    MergedDropsExactlyStale(ss, ds, keys, statics);
    forall i | 0 <= i < |ss| ensures Named(ss, i, ds) in r <==> Wanted(cfg, id, ds, ss[i]) {
      NamedIsRenamed(ss, i, ds);
      KeepIsWanted(cfg, id, ds, ss[i]);
    }
    forall x | x in r ensures IsNew(ss, ds, x) || exists i :: 0 <= i < |ss| && x == Named(ss, i, ds) {
      EntryOrigin(ss, ds, keys, statics, x);
    }
    var pos := MergeOrder(cfg, id, ss, ds, keys);
  }

  /** A merge step on the cluster map.  A failed or empty discovery changes nothing.
      Otherwise the target is the default cluster, or `cluster-discovered` when
      there is none; it keeps its name and strategy and its list is the merge of
      the whole discovery result; every other cluster stays as it is. */
  lemma MergeStepExact(cfg: PoolConfig, cs: Clusters, discovery: Discovery, keys: KeyMap)
    ensures
      var cs' := AfterMerge(cfg, cs, discovery, keys);
      var d := DefaultId(cfg, cs);
      var t := if d == "" then "cluster-discovered" else d;
      if discovery.LookupFailed? || discovery.addresses == [] then cs' == cs
      else
        && cs'.Keys == cs.Keys + {t} && (forall c :: c in cs && c != t ==> cs'[c] == cs[c])
        && (t in cs ==> cs'[t].id == cs[t].id && cs'[t].name == cs[t].name && cs'[t].strategy == cs[t].strategy)
        && (t !in cs ==> cs'[t].id == t && cs'[t].name == "Discovered Cluster" && cs'[t].strategy == LeaderOnly)
        && MergedFrom(cfg, t, if t in cs then cs[t].schedulers else [], discovery.addresses, keys, cs'[t].schedulers)
  {
    var t := MergeTarget(cfg, cs);
    if discovery.Found? && discovery.addresses != [] {
      MergedExact(cfg, t, ClusterOrNew(cs, t).schedulers, discovery.addresses, keys);
    }
  }
}
