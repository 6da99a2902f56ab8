/** The scheduler pool: cluster map operations as functions of the old map, and
    the class that performs them with the gateway's own indexes and loops. */
module Pool {
  import opened Text
  import opened Sorting
  import opened PoolTypes
  import opened Merge
  import opened Routing

  // ------------------------------------------------------------ default cluster

  ghost predicate IsLeast(m: string, ids: set<string>) {
    m in ids && forall y :: y in ids ==> LexLe(m, y)
  }

  lemma {:induction false} LeastExists(ids: set<string>) returns (m: string)
    requires ids != {}
    ensures IsLeast(m, ids)
  {
    var x :| x in ids;
    var rest := ids - {x};
    LexLeTotal(x, x);
    if rest == {} {
      m := x;
      assert forall y :: y in ids ==> y == x || y in rest;
    } else {
      m := LeastExists(rest);
      assert forall y :: y in ids ==> y == x || y in rest;
      LexLeTotal(x, m);
      if LexLe(x, m) {
        forall y | y in rest ensures LexLe(x, y) { LexLeTransitive(x, m, y); }
        m := x;
      }
    }
  }

  ghost function Least(ids: set<string>): (m: string)
    requires ids != {}
    ensures IsLeast(m, ids)
  {
    assert exists w :: IsLeast(w, ids) by { var w := LeastExists(ids); }
    var m :| IsLeast(m, ids);
    m
  }

  /** The configured default if it names a cluster, else the least cluster ID. */
  ghost function DefaultId(cfg: PoolConfig, cs: Clusters): string {
    var t := TrimSpace(cfg.defaultClusterId);
    if t != "" && t in cs then t else if cs == map[] then "" else Least(cs.Keys)
  }

  // ------------------------------------------------------------------- steps

  datatype Discovery = Found(addresses: seq<string>) | LookupFailed

  datatype Probe = Up(at: int) | Down

  /** One probe per entry: cluster ID and position in the cluster. */
  type Probes = (string, nat) -> Probe

  function StaticAddresses(clusters: seq<StaticCluster>, id: string): set<string> {
    if clusters == [] then {}
    else
      var last := clusters[|clusters| - 1];
      StaticAddresses(clusters[..|clusters| - 1], id) +
      if last.id == id then set s | s in last.schedulers :: s.address else {}
  }

  ghost function MergeTarget(cfg: PoolConfig, cs: Clusters): string {
    var d := DefaultId(cfg, cs);
    if d == "" then DISCOVERED_CLUSTER else d
  }

  function ClusterOrNew(cs: Clusters, id: string): Cluster {
    if id in cs then cs[id] else Cluster(id, "Discovered Cluster", [], LeaderOnly)
  }

  ghost function AfterMerge(cfg: PoolConfig, cs: Clusters, discovery: Discovery, keys: KeyMap): Clusters {
    if discovery.LookupFailed? || discovery.addresses == [] then cs
    else
      var id := MergeTarget(cfg, cs);
      var c := ClusterOrNew(cs, id);
      cs[id := c.(schedulers := Merged(c.schedulers, discovery.addresses, keys, StaticAddresses(cfg.clusters, id)))]
  }

  function Probed(s: Scheduler, p: Probe): Scheduler {
    match p
    case Up(at) => s.(healthy := true, lastSeen := at)
    case Down => s.(healthy := false)
  }

  function ProbedAll(c: Cluster, id: string, probes: Probes): Cluster {
    c.(schedulers := seq(|c.schedulers|, i requires 0 <= i < |c.schedulers| => Probed(c.schedulers[i], probes(id, i))))
  }

  function AfterRefresh(cs: Clusters, probes: Probes): Clusters {
    map id | id in cs :: ProbedAll(cs[id], id, probes)
  }

  function Marked(ss: seq<Scheduler>, address: string): (r: seq<Scheduler>)
    ensures |r| == |ss|
  {
    seq(|ss|, i requires 0 <= i < |ss| => if ss[i].address == address then ss[i].(healthy := false) else ss[i])
  }

  function AfterMark(cs: Clusters, id: string, address: string): Clusters {
    if id in cs then cs[id := cs[id].(schedulers := Marked(cs[id].schedulers, address))] else cs
  }

  /** The cluster a selection reads: blank means the default. */
  ghost function SelectedId(cfg: PoolConfig, cs: Clusters, id: string): string {
    if TrimSpace(id) == "" then DefaultId(cfg, cs) else id
  }

  ghost function Ordered(cfg: PoolConfig, cs: Clusters, id: string, session: string, workload: string,
                         hash: KeyHash): Selection {
    var sel := SelectedId(cfg, cs, id);
    if sel in cs then Select(cs[sel].schedulers, cs[sel].strategy, session, workload, hash) else UnknownCluster
  }

  // -------------------------------------------------------------- small loops

  ghost predicate AddressIndex(ss: seq<Scheduler>, byAddr: map<string, nat>) {
    && (forall a :: a in byAddr <==> HasAddress(ss, a))
    && (forall a :: a in byAddr ==> byAddr[a] == LastAt(ss, a))
  }

  ghost predicate KeyIndex(ss: seq<Scheduler>, keys: KeyMap, byKey: map<string, nat>) {
    forall k :: k in byKey <==> exists i :: 0 <= i < |ss| && k in keys(ss[i].address)
  }

  lemma AddressIndexAppend(ss: seq<Scheduler>, s: Scheduler, byAddr: map<string, nat>)
    requires AddressIndex(ss, byAddr)
    ensures AddressIndex(ss + [s], byAddr[s.address := |ss|])
  {
    var r := ss + [s];
    forall a ensures HasAddress(r, a) <==> a == s.address || HasAddress(ss, a) {
      if HasAddress(ss, a) { var i :| 0 <= i < |ss| && ss[i].address == a; assert r[i].address == a; }
      if a == s.address { assert r[|ss|].address == a; }
    }
    forall a | HasAddress(r, a) ensures byAddr[s.address := |ss|][a] == LastAt(r, a) {
      if a != s.address { assert r[..|r| - 1] == ss; }
    }
  }

  lemma KeyIndexAppend(ss: seq<Scheduler>, s: Scheduler, keys: KeyMap, byKey: map<string, nat>, byKey': map<string,
                       nat>)
    requires KeyIndex(ss, keys, byKey)
    requires forall k :: k in byKey' <==> k in byKey || k in keys(s.address)
    ensures KeyIndex(ss + [s], keys, byKey')
  {
    var r := ss + [s];
    forall k ensures k in byKey' <==> exists i :: 0 <= i < |r| && k in keys(r[i].address) {
      if k in byKey {
        var i :| 0 <= i < |ss| && k in keys(ss[i].address);
        assert k in keys(r[i].address);
      }
      if k in keys(s.address) { assert k in keys(r[|ss|].address); }
    }
  }

  /** Records each key for `idx` unless an earlier entry already has it. */
  method AddKeys(byKey: map<string, nat>, ks: seq<string>, idx: nat) returns (r: map<string, nat>)
    ensures forall k :: k in r <==> k in byKey || k in ks
    ensures forall k :: k in r ==> r[k] == if k in byKey then byKey[k] else idx
  {
    r := byKey;
    for j := 0 to |ks|
      invariant forall k :: k in r <==> k in byKey || k in ks[..j]
      invariant forall k :: k in r ==> r[k] == if k in byKey then byKey[k] else idx
    {
      if ks[j] !in r { r := r[ks[j] := idx]; }
    }
  }

  method AnyKnown(byKey: map<string, nat>, ks: seq<string>) returns (known: bool)
    ensures known <==> exists k :: k in ks && k in byKey
  {
    for j := 0 to |ks|
      invariant forall k :: k in ks[..j] ==> k !in byKey
    {
      if ks[j] in byKey { return true; }
    }
    return false;
  }

  lemma KeyTakenByIndex(ss: seq<Scheduler>, a: string, keys: KeyMap, byKey: map<string, nat>)
    requires KeyIndex(ss, keys, byKey)
    ensures KeyTaken(ss, a, keys) <==> exists k :: k in keys(a) && k in byKey
  {
    if KeyTaken(ss, a, keys) {
      var i :| 0 <= i < |ss| && Shares(keys, ss[i].address, a);
      var k :| k in keys(ss[i].address) && k in keys(a);
      assert k in byKey;
    }
    if k :| k in keys(a) && k in byKey {
      var i :| 0 <= i < |ss| && k in keys(ss[i].address);
      assert Shares(keys, ss[i].address, a);
    }
  }

  /** The address list a discovery round yields: trimmed, without blanks or
      repeats, ascending. */
  method Dedupe(raw: seq<string>) returns (out: seq<string>)
    ensures Sorted(out, LexLe)
    ensures forall i, j :: 0 <= i < j < |out| ==> out[i] != out[j]
    ensures forall a :: a in out <==> a != "" && exists i :: 0 <= i < |raw| && a == TrimSpace(raw[i])
  {
    var seen: set<string> := {};
    var acc: seq<string> := [];
    for n := 0 to |raw|
      invariant forall a :: a in seen <==> a in acc
      invariant forall i, j :: 0 <= i < j < |acc| ==> acc[i] != acc[j]
      invariant forall a :: a in acc ==> a != "" && exists i :: 0 <= i < n && a == TrimSpace(raw[i])
      invariant forall i :: 0 <= i < n && TrimSpace(raw[i]) != "" ==> TrimSpace(raw[i]) in acc
    {
      var v := TrimSpace(raw[n]);
      if v != "" && v !in seen {
        seen := seen + {v};
        acc := acc + [v];
      }
    }
    out := StableSort(acc, LexLe);
    LexLePreorder();
    StableSortCorrect(acc, LexLe);
    PermutationFacts(acc, out);
  }

  lemma LexLePreorder()
    ensures TotalPreorder(LexLe)
  {
    forall a, b ensures LexLe(a, b) || LexLe(b, a) { LexLeTotal(a, b); }
    forall a, b, c | LexLe(a, b) && LexLe(b, c) ensures LexLe(a, c) { LexLeTransitive(a, b, c); }
  }

  lemma PermutationFacts(s: seq<string>, t: seq<string>)
    requires multiset(s) == multiset(t)
    requires forall i, j :: 0 <= i < j < |s| ==> s[i] != s[j]
    ensures forall a :: a in s <==> a in t
    ensures forall i, j :: 0 <= i < j < |t| ==> t[i] != t[j]
  {
    forall a ensures a in s <==> a in t {
      assert a in s <==> a in multiset(s);
      assert a in t <==> a in multiset(t);
    }
    forall i, j | 0 <= i < j < |t| ensures t[i] != t[j] {
      if t[i] == t[j] {
        assert t == t[..i] + [t[i]] + t[i + 1..j] + [t[j]] + t[j + 1..];
        assert multiset(s)[t[i]] >= 2;
        SingleOccurrence(s, t[i]);
      }
    }
  }

  lemma {:induction false} SingleOccurrence(s: seq<string>, x: string)
    requires forall i, j :: 0 <= i < j < |s| ==> s[i] != s[j]
    ensures multiset(s)[x] <= 1
  {
    if s != [] {
      SingleOccurrence(s[1..], x);
      assert s == [s[0]] + s[1..];
      assert s[0] !in s[1..];
    }
  }

  // ------------------------------------------------------------------ the pool

  class SchedulerPool {
    const cfg: PoolConfig
    var clusters: Clusters

    constructor (cfg: PoolConfig)
      ensures this.cfg == cfg && clusters == InitialClusters(cfg.clusters)
    {
      this.cfg := cfg;
      clusters := map[];
      new;
      for n := 0 to |cfg.clusters|
        invariant clusters == InitialClusters(cfg.clusters[..n])
      {
        var cc := cfg.clusters[n];
        assert cfg.clusters[..n + 1][..n] == cfg.clusters[..n];
        var schedulers: seq<Scheduler> := [];
        for i := 0 to |cc.schedulers|
          invariant |schedulers| == i
          invariant forall j :: 0 <= j < i ==> schedulers[j] == Configured(cc.schedulers[j])
        {
          schedulers := schedulers + [Configured(cc.schedulers[i])];
        }
        assert schedulers == ConfiguredCluster(cc).schedulers;
        clusters := clusters[cc.id := Cluster(cc.id, cc.name, schedulers, ParseStrategy(cc.strategy))];
      }
      assert cfg.clusters[..|cfg.clusters|] == cfg.clusters;
    }

    method DefaultClusterId() returns (id: string)
      ensures id == DefaultId(cfg, clusters)
    {
      var t := TrimSpace(cfg.defaultClusterId);
      if t != "" && t in clusters { return t; }
      if clusters == map[] { return ""; }
      var ids: seq<string> := [];
      var rest := clusters.Keys;
      while rest != {}
        invariant rest <= clusters.Keys
        invariant forall k :: k in clusters.Keys <==> k in rest || k in ids
        decreases rest
      {
        var k :| k in rest;
        rest := rest - {k};
        ids := ids + [k];
      }
      var sorted := StableSort(ids, LexLe);
      LexLePreorder();
      StableSortCorrect(ids, LexLe);
      assert ids != [] by { var k :| k in clusters.Keys; assert k in ids; }
      id := sorted[0];
      FirstIsLeast(ids, sorted);
    }

    lemma FirstIsLeast(ids: seq<string>, sorted: seq<string>)
      requires forall k :: k in clusters.Keys <==> k in ids
      requires clusters != map[] && sorted != []
      requires multiset(sorted) == multiset(ids) && Sorted(sorted, LexLe)
      ensures sorted[0] == Least(clusters.Keys)
    {
      var m := Least(clusters.Keys);
      assert m in multiset(sorted);
      assert sorted[0] in multiset(ids);
      var i :| 0 <= i < |sorted| && sorted[i] == m;
      if i > 0 { LexLeAntisymmetric(sorted[0], m); }
    }

    method DiscoverAndMerge(discovery: Discovery, keys: KeyMap)
      modifies this
      ensures clusters == AfterMerge(cfg, old(clusters), discovery, keys)
    {
      if discovery.LookupFailed? || |discovery.addresses| == 0 { return; }
      var id := DefaultClusterId();
      if id == "" { id := DISCOVERED_CLUSTER; }
      var cluster := Cluster(id, "Discovered Cluster", [], LeaderOnly);
      if id in clusters { cluster := clusters[id]; }
      var adopted := AdoptDiscovered(cluster.schedulers, discovery.addresses, keys);
      var statics := StaticSet(id);
      var filtered := DropStale(adopted, discovery.addresses, statics);
      clusters := clusters[id := cluster.(schedulers := filtered)];
    }

    /** The address and key indexes, then one pass over the discovered addresses. */
    method AdoptDiscovered(ss: seq<Scheduler>, ds: seq<string>, keys: KeyMap) returns (r: seq<Scheduler>)
      ensures r == AdoptAll(ss, ds, keys)
    {
      var byAddr: map<string, nat>, byKey: map<string, nat> := map[], map[];
      for i := 0 to |ss|
        invariant AddressIndex(ss[..i], byAddr) && KeyIndex(ss[..i], keys, byKey)
      {
        assert ss[..i + 1] == ss[..i] + [ss[i]];
        AddressIndexAppend(ss[..i], ss[i], byAddr);
        byAddr := byAddr[ss[i].address := i];
        var byKey' := AddKeys(byKey, keys(ss[i].address), i);
        KeyIndexAppend(ss[..i], ss[i], keys, byKey, byKey');
        byKey := byKey';
      }
      assert ss[..|ss|] == ss;
      r := ss;
      for n := 0 to |ds|
        invariant r == AdoptAll(ss, ds[..n], keys)
        invariant AddressIndex(r, byAddr) && KeyIndex(r, keys, byKey)
      {
        var a := ds[n];
        assert ds[..n + 1][..n] == ds[..n];
        assert AdoptAll(ss, ds[..n + 1], keys) == Adopt(r, a, keys);
        if a in byAddr {
          var idx := byAddr[a];
          if r[idx].id == "" {
            var r' := r[idx := r[idx].(id := DiscoveredId(a))];
            SameAddressesSameIndexes(r, r', keys, byAddr, byKey);
            r := r';
          }
        } else {
          var duplicate := AnyKnown(byKey, keys(a));
          KeyTakenByIndex(r, a, keys, byKey);
          if !duplicate {
            AddressIndexAppend(r, NewEntry(a), byAddr);
            byAddr := byAddr[a := |r|];
            var byKey' := AddKeys(byKey, keys(a), |r|);
            KeyIndexAppend(r, NewEntry(a), keys, byKey, byKey');
            byKey := byKey';
            r := r + [NewEntry(a)];
          }
        }
      }
      assert ds[..|ds|] == ds;
    }

    method StaticSet(id: string) returns (statics: set<string>)
      ensures statics == StaticAddresses(cfg.clusters, id)
    {
      statics := {};
      for n := 0 to |cfg.clusters|
        invariant statics == StaticAddresses(cfg.clusters[..n], id)
      {
        var c := cfg.clusters[n];
        assert cfg.clusters[..n + 1][..n] == cfg.clusters[..n];
        if c.id == id { statics := statics + set s | s in c.schedulers :: s.address; }
      }
      assert cfg.clusters[..|cfg.clusters|] == cfg.clusters;
    }

    method DropStale(ss: seq<Scheduler>, ds: seq<string>, statics: set<string>) returns (filtered: seq<Scheduler>)
      ensures filtered == Retain(ss, ds, statics)
    {
      filtered := [];
      for n := 0 to |ss|
        invariant filtered == Retain(ss[..n], ds, statics)
      {
        var s := ss[n];
        assert ss[..n + 1][..n] == ss[..n];
        if s.address in statics {
          filtered := filtered + [s];
        } else if HasPrefix(s.id, DISCOVERED_PREFIX) {
          if s.address in ds { filtered := filtered + [s]; }
        } else {
          filtered := filtered + [s];
        }
      }
      assert ss[..|ss|] == ss;
    }

    method RefreshHealth(probes: Probes)
      modifies this
      ensures clusters == AfterRefresh(old(clusters), probes)
    {
      var rest := clusters.Keys;
      while rest != {}
        invariant rest <= clusters.Keys == old(clusters).Keys
        invariant forall id :: id in clusters ==>
          clusters[id] == if id in rest then old(clusters)[id] else ProbedAll(old(clusters)[id], id, probes)
        decreases rest
      {
        var id :| id in rest;
        var ss := clusters[id].schedulers;
        for i := 0 to |ss|
          invariant |ss| == |old(clusters)[id].schedulers|
          invariant forall j :: 0 <= j < |ss| ==>
            ss[j] == if j < i then Probed(old(clusters)[id].schedulers[j], probes(id, j))
              else old(clusters)[id].schedulers[j]
        {
          match probes(id, i)
          case Up(at) => ss := ss[i := ss[i].(healthy := true, lastSeen := at)];
          case Down => ss := ss[i := ss[i].(healthy := false)];
        }
        assert clusters[id].(schedulers := ss) == ProbedAll(old(clusters)[id], id, probes);
        clusters := clusters[id := clusters[id].(schedulers := ss)];
        rest := rest - {id};
      }
    }

    method MarkUnhealthy(id: string, address: string)
      modifies this
      ensures clusters == AfterMark(old(clusters), id, address)
    {
      if id !in clusters { return; }
      var ss := clusters[id].schedulers;
      for i := 0 to |ss|
        invariant |ss| == |old(clusters)[id].schedulers|
        invariant forall j :: 0 <= j < |ss| ==>
          ss[j] == if j < i then Marked(old(clusters)[id].schedulers, address)[j] else old(clusters)[id].schedulers[j]
      {
        if ss[i].address == address { ss := ss[i := ss[i].(healthy := false)]; }
      }
      assert ss == Marked(old(clusters)[id].schedulers, address);
      clusters := clusters[id := clusters[id].(schedulers := ss)];
    }

    method OrderedSchedulers(id: string, session: string, workload: string, hash: KeyHash) returns (r: Selection)
      ensures r == Ordered(cfg, clusters, id, session, workload, hash)
    {
      var sel := id;
      if TrimSpace(id) == "" { sel := DefaultClusterId(); }
      if sel !in clusters { return UnknownCluster; }
      var ss := clusters[sel].schedulers;
      var healthy: seq<Scheduler> := [];
      for n := 0 to |ss|
        invariant healthy == HealthyOf(ss[..n])
      {
        assert ss[..n + 1][..n] == ss[..n];
        if ss[n].healthy { healthy := healthy + [ss[n]]; }
      }
      assert ss[..|ss|] == ss;
      if |healthy| == 0 { return NoHealthySchedulers; }
      var h := StableSort(healthy, ById);
      match clusters[sel].strategy
      case LeaderOnly =>
        for i := 0 to |h|
          invariant forall j :: 0 <= j < i ==> !h[j].isLeader
        {
          if h[i].isLeader {
            assert FirstLeader(h) == i;
            if i == 0 {
              assert LeaderFirst(h) == h;
              return Candidates(h);
            }
            return Candidates([h[i]] + h[..i] + h[i + 1..]);
          }
        }
        r := Candidates(h);
      case Sticky => r := Candidates(RotateByIndex(h, IndexByKey(session, |h|, hash)));
      case Shard => r := Candidates(RotateByIndex(h, IndexByKey(workload, |h|, hash)));
      case Unsupported(_) => r := UnsupportedStrategy;
    }
  }

  lemma SameAddressesSameIndexes(r: seq<Scheduler>, r': seq<Scheduler>, keys: KeyMap,
                                 byAddr: map<string, nat>, byKey: map<string, nat>)
    requires |r| == |r'| && forall i :: 0 <= i < |r| ==> r'[i].address == r[i].address
    requires AddressIndex(r, byAddr) && KeyIndex(r, keys, byKey)
    ensures AddressIndex(r', byAddr) && KeyIndex(r', keys, byKey)
  {
    forall a ensures HasAddress(r', a) <==> HasAddress(r, a) {
      if HasAddress(r, a) { assert r'[LastAt(r, a)].address == a; }
    }
    forall a | HasAddress(r', a) ensures byAddr[a] == LastAt(r', a) {
      assert r[LastAt(r', a)].address == a;
    }
    forall k ensures k in byKey <==> exists i :: 0 <= i < |r'| && k in keys(r'[i].address) {
      if k in byKey {
        var i :| 0 <= i < |r| && k in keys(r[i].address);
        assert k in keys(r'[i].address);
      }
    }
  }
}
