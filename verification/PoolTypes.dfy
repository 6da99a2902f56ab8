/** The gateway's view of its scheduler clusters. */
module PoolTypes {
  import opened Text

  datatype Strategy = LeaderOnly | Sticky | Shard | Unsupported(name: string)

  datatype Scheduler = Scheduler(id: string, address: string, isLeader: bool, healthy: bool, lastSeen: int)

  datatype Cluster = Cluster(id: string, name: string, schedulers: seq<Scheduler>, strategy: Strategy)

  type Clusters = map<string, Cluster>

  /** A scheduler and a cluster as written in the configuration file. */
  datatype StaticScheduler = StaticScheduler(id: string, address: string, isLeader: bool)
  datatype StaticCluster = StaticCluster(id: string, name: string, schedulers: seq<StaticScheduler>, strategy: string)

  datatype PoolConfig = PoolConfig(defaultClusterId: string, clusters: seq<StaticCluster>)

  function ParseStrategy(configured: string): Strategy {
    var s := TrimSpace(configured);
    if s == "" || s == "leader-only" then LeaderOnly
    else if s == "sticky" then Sticky
    else if s == "shard" then Shard
    else Unsupported(s)
  }

  /** At start-up nothing has been probed yet. */
  function Configured(sc: StaticScheduler): Scheduler {
    Scheduler(sc.id, sc.address, sc.isLeader, false, 0)
  }

  function ConfiguredCluster(c: StaticCluster): Cluster {
    Cluster(c.id, c.name, seq(|c.schedulers|, i requires 0 <= i < |c.schedulers| => Configured(c.schedulers[i])),
            ParseStrategy(c.strategy))
  }

  /** A later cluster with the same ID replaces an earlier one. */
  function InitialClusters(clusters: seq<StaticCluster>): Clusters {
    if clusters == [] then map[]
    else
      var last := clusters[|clusters| - 1];
      InitialClusters(clusters[..|clusters| - 1])[last.id := ConfiguredCluster(last)]
  }

  const DISCOVERED_CLUSTER := "cluster-discovered"
  const DISCOVERED_PREFIX := "discovered-"

  function Dashed(s: string): (r: string)
    ensures |r| == |s|
  {
    if s == "" then "" else [if s[0] == ':' || s[0] == '.' then '-' else s[0]] + Dashed(s[1..])
  }

  function DiscoveredId(address: string): (id: string)
    ensures HasPrefix(id, DISCOVERED_PREFIX) && id != ""
  {
    DISCOVERED_PREFIX + Dashed(address)
  }

  /** What discovery adds for an address: no leader flag, not yet probed. */
  function NewEntry(address: string): Scheduler {
    Scheduler(DiscoveredId(address), address, false, false, 0)
  }
}
