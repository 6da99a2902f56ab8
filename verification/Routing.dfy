/** Ordering the healthy schedulers of a cluster into failover candidates. */
module Routing {
  import opened Text
  import opened Sorting
  import opened PoolTypes

  /** The 32-bit hash of a routing key; every result holds for any such hash. */
  type Hash32 = n: nat | n < 0x1_0000_0000
  type KeyHash = string -> Hash32

  datatype Selection =
    | Candidates(list: seq<Scheduler>)
    | UnknownCluster
    | NoHealthySchedulers
    | UnsupportedStrategy

  predicate ById(a: Scheduler, b: Scheduler) {
    LexLe(a.id, b.id)
  }

  lemma ByIdTotalPreorder()
    ensures TotalPreorder(ById)
  {
    forall a: Scheduler, b: Scheduler ensures ById(a, b) || ById(b, a) { LexLeTotal(a.id, b.id); }
    forall a: Scheduler, b: Scheduler, c: Scheduler | ById(a, b) && ById(b, c) ensures ById(a, c) {
      LexLeTransitive(a.id, b.id, c.id);
    }
  }

  function HealthyOf(ss: seq<Scheduler>): (r: seq<Scheduler>) {
    if ss == [] then []
    else HealthyOf(ss[..|ss| - 1]) + if ss[|ss| - 1].healthy then [ss[|ss| - 1]] else []
  }

  /** Position of the first leader, or the length when there is none. */
  function FirstLeader(s: seq<Scheduler>): (i: nat)
    ensures i <= |s| && (i < |s| ==> s[i].isLeader)
    ensures forall j :: 0 <= j < i ==> !s[j].isLeader
  {
    if s == [] || s[0].isLeader then 0 else 1 + FirstLeader(s[1..])
  }

  function LeaderFirst(s: seq<Scheduler>): seq<Scheduler> {
    var i := FirstLeader(s);
    if i == |s| then s else [s[i]] + s[..i] + s[i + 1..]
  }

  function RotateByIndex(s: seq<Scheduler>, idx: nat): seq<Scheduler>
    requires idx <= |s|
  {
    if |s| <= 1 || idx == 0 then s else s[idx..] + s[..idx]
  }

  function IndexByKey(key: string, size: nat, hash: KeyHash): (i: nat)
    ensures size > 0 ==> i < size
    ensures size == 0 ==> i == 0
  {
    if size <= 1 || TrimSpace(key) == "" then 0 else hash(key) % size
  }

  function Select(ss: seq<Scheduler>, strategy: Strategy, session: string, workload: string, hash: KeyHash): Selection {
    var h := StableSort(HealthyOf(ss), ById);
    if h == [] then NoHealthySchedulers
    else match strategy
      case LeaderOnly => Candidates(LeaderFirst(h))
      case Sticky => Candidates(RotateByIndex(h, IndexByKey(session, |h|, hash)))
      case Shard => Candidates(RotateByIndex(h, IndexByKey(workload, |h|, hash)))
      case Unsupported(_) => UnsupportedStrategy
  }

  lemma {:induction false} HealthyCount(ss: seq<Scheduler>, x: Scheduler)
    ensures multiset(HealthyOf(ss))[x] == if x.healthy then multiset(ss)[x] else 0
  {
    if ss != [] {
      HealthyCount(ss[..|ss| - 1], x);
      assert ss == ss[..|ss| - 1] + [ss[|ss| - 1]];
    }
  }

  lemma {:induction false} HealthyMembers(ss: seq<Scheduler>)
    ensures forall x :: x in HealthyOf(ss) <==> x in ss && x.healthy
  {
    forall x ensures x in HealthyOf(ss) <==> x in ss && x.healthy {
      HealthyCount(ss, x);
      assert x in HealthyOf(ss) <==> x in multiset(HealthyOf(ss));
      assert x in ss <==> x in multiset(ss);
    }
  }

  lemma RotatePermutes(s: seq<Scheduler>, idx: nat)
    requires idx <= |s|
    ensures multiset(RotateByIndex(s, idx)) == multiset(s)
  {
    assert s == s[..idx] + s[idx..];
  }

  lemma LeaderFirstPermutes(s: seq<Scheduler>)
    ensures multiset(LeaderFirst(s)) == multiset(s)
  {
    var i := FirstLeader(s);
    if i < |s| {
      assert s == s[..i] + [s[i]] + s[i + 1..];
    }
  }

  /** A selection succeeds exactly when some entry is healthy and the strategy
      is known, and then lists every healthy entry exactly as often as the
      cluster does and nothing else. */
  lemma SelectPermutesHealthy(ss: seq<Scheduler>, strategy: Strategy, session: string, workload: string, hash: KeyHash)
    ensures
      var r := Select(ss, strategy, session, workload, hash);
      var some := exists x :: x in ss && x.healthy;
      && (r.Candidates? <==> some && !strategy.Unsupported?)
      && (r.NoHealthySchedulers? <==> !some)
      && (r.Candidates? ==>
            && r.list != []
            && forall x: Scheduler :: multiset(r.list)[x] == if x.healthy then multiset(ss)[x] else 0)
  {
    var healthy := HealthyOf(ss);
    HealthyMembers(ss);
    assert healthy != [] ==> healthy[0] in healthy;
    SelectShape(ss, strategy, session, workload, hash);
    forall x: Scheduler ensures multiset(healthy)[x] == if x.healthy then multiset(ss)[x] else 0 {
      HealthyCount(ss, x);
    }
  }

  lemma SelectShape(ss: seq<Scheduler>, strategy: Strategy, session: string, workload: string, hash: KeyHash)
    ensures
      var r, healthy := Select(ss, strategy, session, workload, hash), HealthyOf(ss);
      && (r.Candidates? <==> healthy != [] && !strategy.Unsupported?)
      && (r.NoHealthySchedulers? <==> healthy == [])
      && (r.Candidates? ==> r.list != [] && multiset(r.list) == multiset(healthy))
  {
    var h := StableSort(HealthyOf(ss), ById);
    assert |h| == |HealthyOf(ss)|;
    match strategy
    case LeaderOnly => LeaderFirstPermutes(h);
    case Sticky => RotatePermutes(h, IndexByKey(session, |h|, hash));
    case Shard => RotatePermutes(h, IndexByKey(workload, |h|, hash));
    case Unsupported(_) =>
  }

  lemma SortedHealthy(ss: seq<Scheduler>) returns (h: seq<Scheduler>)
    ensures h == StableSort(HealthyOf(ss), ById) && Sorted(h, ById)
    ensures forall x :: x in h <==> x in ss && x.healthy
  {
    h := StableSort(HealthyOf(ss), ById);
    ByIdTotalPreorder();
    StableSortCorrect(HealthyOf(ss), ById);
    HealthyMembers(ss);
    forall x ensures x in h <==> x in ss && x.healthy {
      assert x in h <==> x in multiset(h);
      assert x in HealthyOf(ss) <==> x in multiset(HealthyOf(ss));
    }
  }

  ghost predicate LeaderLed(h: seq<Scheduler>, r: seq<Scheduler>) {
    && r != [] && Sorted(r[1..], ById)
    && (forall l :: l in h && l.isLeader ==> r[0].isLeader && ById(r[0], l))
    && ((forall l :: l in h ==> !l.isLeader) ==> Sorted(r, ById))
  }

  lemma LeaderFirstOrder(h: seq<Scheduler>)
    requires h != [] && Sorted(h, ById)
    ensures LeaderLed(h, LeaderFirst(h))
  {
    var i := FirstLeader(h);
    var r := LeaderFirst(h);
    if i < |h| {
      assert h[i] in h;
      WithoutOneSorted(h, i);
      assert r[1..] == h[..i] + h[i + 1..];
      forall l | l in h && l.isLeader ensures ById(r[0], l) {
        var k :| 0 <= k < |h| && h[k] == l;
        if i == k { LexLeTotal(l.id, l.id); }
      }
    }
  }

  lemma WithoutOneSorted(h: seq<Scheduler>, i: nat)
    requires i < |h| && Sorted(h, ById)
    ensures Sorted(h[..i] + h[i + 1..], ById)
  {
    var t := h[..i] + h[i + 1..];
    assert forall k :: 0 <= k < |t| ==> t[k] == h[if k < i then k else k + 1];
  }

  /** `list` is `h` turned by `k` places. */
  ghost predicate IsRotation(list: seq<Scheduler>, h: seq<Scheduler>, k: nat) {
    && k < |h| == |list|
    && (forall i :: 0 <= i < |h| - k ==> list[i] == h[i + k])
    && (forall i :: |h| - k <= i < |h| ==> list[i] == h[i + k - |h|])
  }

  lemma RotateAt(s: seq<Scheduler>, k: nat)
    requires k < |s|
    ensures IsRotation(RotateByIndex(s, k), s, k)
  {
  }

  /** Leader-only: a healthy leader, if any, comes first, and it is one with the
      least ID; everything else ascends by ID. */
  lemma LeaderOnlyOrder(ss: seq<Scheduler>, session: string, workload: string, hash: KeyHash)
    requires exists x :: x in ss && x.healthy
    ensures
      var r := Select(ss, LeaderOnly, session, workload, hash);
      && r.Candidates? && r.list != []
      && Sorted(r.list[1..], ById)
      && (forall l :: l in ss && l.healthy && l.isLeader ==> r.list[0].isLeader && ById(r.list[0], l))
      && ((forall l :: l in ss && l.healthy ==> !l.isLeader) ==> Sorted(r.list, ById))
  {
    var h := SortedHealthy(ss);
    assert h != [] by { var x :| x in ss && x.healthy; assert x in h; }
    LeaderFirstOrder(h);
    assert Select(ss, LeaderOnly, session, workload, hash) == Candidates(LeaderFirst(h));
  }

  /** Sticky and shard: the candidates are the ID order turned cyclically by an
      index that depends only on the key and the number of healthy entries. */
  lemma KeyedOrderIsRotation(ss: seq<Scheduler>, strategy: Strategy, session: string, workload: string, hash: KeyHash)
    requires strategy.Sticky? || strategy.Shard?
    requires exists x :: x in ss && x.healthy
    ensures
      var r := Select(ss, strategy, session, workload, hash);
      var h := StableSort(HealthyOf(ss), ById);
      var k := IndexByKey(if strategy.Sticky? then session else workload, |h|, hash);
      r.Candidates? && Sorted(h, ById) && IsRotation(r.list, h, k)
  {
    var h := SortedHealthy(ss);
    assert h != [] by { var x :| x in ss && x.healthy; assert x in h; }
    var k := IndexByKey(if strategy.Sticky? then session else workload, |h|, hash);
    assert Select(ss, strategy, session, workload, hash) == Candidates(RotateByIndex(h, k));
    RotateAt(h, k);
  }

  /** When healthy entries have distinct IDs, candidates do not depend on the
      order in which entries were inserted. */
  lemma SelectInsertionOrderFree(ss: seq<Scheduler>, tt: seq<Scheduler>, strategy: Strategy,
                                 session: string, workload: string, hash: KeyHash)
    requires multiset(ss) == multiset(tt)
    requires forall x, y :: x in ss && y in ss && x.healthy && y.healthy && x.id == y.id ==> x == y
    ensures Select(ss, strategy, session, workload, hash) == Select(tt, strategy, session, workload, hash)
  {
    var a, b := HealthyOf(ss), HealthyOf(tt);
    forall x ensures multiset(a)[x] == multiset(b)[x] {
      HealthyCount(ss, x);
      HealthyCount(tt, x);
    }
    assert multiset(a) == multiset(b);
    HealthyMembers(ss);
    forall x, y | x in a && y in a && ById(x, y) && ById(y, x) ensures x == y {
      LexLeAntisymmetric(x.id, y.id);
    }
    ByIdTotalPreorder();
    StableSortOrderFree(a, b, ById);
  }

  lemma IndexExact(key: string, size: nat, hash: KeyHash)
    requires size > 0
    ensures TrimSpace(key) == "" ==> IndexByKey(key, size, hash) == 0
    ensures TrimSpace(key) != "" ==> IndexByKey(key, size, hash) == hash(key) % size
  {
    if size == 1 { assert hash(key) % 1 == 0; }
  }

  lemma RotationFirst(r: seq<Scheduler>, s: seq<Scheduler>, k: nat)
    requires s != [] && k < |s| && IsRotation(r, s, k)
    ensures |r| == |s| && r[0] == s[k] && (k == 0 ==> r == s)
  {
    assert k == 0 ==> r == s;
  }

  /** Sticky and shard begin with the entry of the ID order that the hash of a
      non-blank key points to; with a blank key the ID order stays as it is. */
  lemma KeyedFirst(ss: seq<Scheduler>, strategy: Strategy, session: string, workload: string, hash: KeyHash)
    requires strategy.Sticky? || strategy.Shard?
    requires exists x :: x in ss && x.healthy
    ensures
      var r := Select(ss, strategy, session, workload, hash);
      var byId := StableSort(HealthyOf(ss), ById);
      var key := if strategy.Sticky? then session else workload;
      && r.Candidates? && byId != [] && |r.list| == |byId|
      && (TrimSpace(key) != "" ==> r.list[0] == byId[hash(key) % |byId|])
      && (TrimSpace(key) == "" ==> r.list == byId)
  {
    var byId := SortedHealthy(ss);
    var key := if strategy.Sticky? then session else workload;
    assert byId != [] by { var x :| x in ss && x.healthy; assert x in byId; }
    KeyedOrderIsRotation(ss, strategy, session, workload, hash);
    IndexExact(key, |byId|, hash);
    RotationFirst(Select(ss, strategy, session, workload, hash).list, byId, IndexByKey(key, |byId|, hash));
  }
}
