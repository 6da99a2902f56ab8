/** Merging discovered addresses into a cluster, as a function on the scheduler
    list: adopt every discovered address in order, then drop stale discovered
    entries.  `keys` stands for the canonical address keys, fixed while a merge
    runs; the indexes the gateway builds to do this fast are in `SchedulerPool`. */
module Merge {
  import opened Text
  import opened PoolTypes

  type KeyMap = string -> seq<string>

  predicate Shares(keys: KeyMap, a: string, b: string) {
    exists k :: k in keys(a) && k in keys(b)
  }

  predicate HasAddress(ss: seq<Scheduler>, a: string) {
    exists i :: 0 <= i < |ss| && ss[i].address == a
  }

  /** Some entry has a canonical key in common with `a`. */
  predicate KeyTaken(ss: seq<Scheduler>, a: string, keys: KeyMap) {
    exists i :: 0 <= i < |ss| && Shares(keys, ss[i].address, a)
  }

  predicate Covered(ss: seq<Scheduler>, a: string, keys: KeyMap) {
    HasAddress(ss, a) || KeyTaken(ss, a, keys)
  }

  /** Position of the last entry at `a`, the one the address index keeps. */
  function LastAt(ss: seq<Scheduler>, a: string): (i: nat)
    requires HasAddress(ss, a)
    ensures i < |ss| && ss[i].address == a
    ensures forall j :: i < j < |ss| ==> ss[j].address != a
  {
    if ss[|ss| - 1].address == a then |ss| - 1
    else
      assert HasAddress(ss[..|ss| - 1], a) by {
        var j :| 0 <= j < |ss| && ss[j].address == a;
        assert ss[..|ss| - 1][j].address == a;
      }
      LastAt(ss[..|ss| - 1], a)
  }

  function Adopt(ss: seq<Scheduler>, a: string, keys: KeyMap): seq<Scheduler> {
    if HasAddress(ss, a) then
      var i := LastAt(ss, a);
      if ss[i].id == "" then ss[i := ss[i].(id := DiscoveredId(a))] else ss
    else if KeyTaken(ss, a, keys) then ss
    else ss + [NewEntry(a)]
  }

  function AdoptAll(ss: seq<Scheduler>, ds: seq<string>, keys: KeyMap): seq<Scheduler> {
    if ds == [] then ss
    else Adopt(AdoptAll(ss, ds[..|ds| - 1], keys), ds[|ds| - 1], keys)
  }

  predicate Keep(s: Scheduler, ds: seq<string>, statics: set<string>) {
    s.address in statics || !HasPrefix(s.id, DISCOVERED_PREFIX) || s.address in ds
  }

  function Retain(ss: seq<Scheduler>, ds: seq<string>, statics: set<string>): seq<Scheduler> {
    if ss == [] then []
    else Retain(ss[..|ss| - 1], ds, statics) + if Keep(ss[|ss| - 1], ds, statics) then [ss[|ss| - 1]] else []
  }

  function Merged(ss: seq<Scheduler>, ds: seq<string>, keys: KeyMap, statics: set<string>): seq<Scheduler> {
    Retain(AdoptAll(ss, ds, keys), ds, statics)
  }

  // ---------------------------------------------------------------- adoption

  /** An old entry after adoption: only a missing ID may have been filled in,
      and only for the last entry at a discovered address. */
  function Renamed(ss: seq<Scheduler>, i: nat, ds: seq<string>): (s: Scheduler)
    requires i < |ss|
    ensures s == ss[i].(id := s.id) && (ss[i].id != "" ==> s == ss[i])
  {
    var s := ss[i];
    if s.id == "" && s.address in ds && HasAddress(ss, s.address) && i == LastAt(ss, s.address)
    then s.(id := DiscoveredId(s.address)) else s
  }

  function AllRenamed(ss: seq<Scheduler>, ds: seq<string>): seq<Scheduler> {
    seq(|ss|, i requires 0 <= i < |ss| => Renamed(ss, i, ds))
  }

  predicate Clash(keys: KeyMap, a: Scheduler, b: Scheduler) {
    a.address == b.address || Shares(keys, a.address, b.address)
  }

  ghost predicate Adopted(ss: seq<Scheduler>, ds: seq<string>, keys: KeyMap, r: seq<Scheduler>) {
    && |ss| <= |r|
    && r[..|ss|] == AllRenamed(ss, ds)
    && (forall j :: |ss| <= j < |r| ==> r[j] == NewEntry(r[j].address) && r[j].address in ds)
    && (forall i, j :: 0 <= i < j < |r| && |ss| <= j ==> !Clash(keys, r[i], r[j]))
    && (forall d :: d in ds ==> Covered(r, d, keys))
  }

  lemma {:induction false} AdoptAllAdopts(ss: seq<Scheduler>, ds: seq<string>, keys: KeyMap)
    ensures Adopted(ss, ds, keys, AdoptAll(ss, ds, keys))
  {
    if ds == [] {
      assert ss == AllRenamed(ss, ds);
    } else {
      var ds', d := ds[..|ds| - 1], ds[|ds| - 1];
      var r' := AdoptAll(ss, ds', keys);
      AdoptAllAdopts(ss, ds', keys);
      AdoptStep(ss, ds', d, keys, r');
      assert ds == ds' + [d];
    }
  }

  lemma AdoptStep(ss: seq<Scheduler>, ds: seq<string>, d: string, keys: KeyMap, r: seq<Scheduler>)
    requires Adopted(ss, ds, keys, r)
    ensures Adopted(ss, ds + [d], keys, Adopt(r, d, keys))
  {
    var r' := Adopt(r, d, keys);
    AdoptKeepsAddresses(r, d, keys);
    AdoptRenames(ss, ds, d, keys, r);
    forall j | |ss| <= j < |r'| ensures r'[j] == NewEntry(r'[j].address) && r'[j].address in ds + [d] {
      if j < |r| { assert r[j] == NewEntry(r[j].address); }
    }
    forall i, j | 0 <= i < j < |r'| && |ss| <= j ensures !Clash(keys, r'[i], r'[j]) {
      if j < |r| { assert !Clash(keys, r[i], r[j]); }
    }
    forall e | e in ds + [d] ensures Covered(r', e, keys) {
      CoveredMonotone(r, r', e, keys);
      if e == d && !Covered(r, d, keys) { assert r'[|r|].address == d; }
    }
  }

  lemma AdoptKeepsAddresses(r: seq<Scheduler>, d: string, keys: KeyMap)
    ensures |r| <= |Adopt(r, d, keys)|
    ensures forall i :: 0 <= i < |r| ==> Adopt(r, d, keys)[i].address == r[i].address
  {
  }

  lemma AdoptRenames(ss: seq<Scheduler>, ds: seq<string>, d: string, keys: KeyMap, r: seq<Scheduler>)
    requires Adopted(ss, ds, keys, r)
    ensures |ss| <= |Adopt(r, d, keys)| && Adopt(r, d, keys)[..|ss|] == AllRenamed(ss, ds + [d])
  {
    var r' := Adopt(r, d, keys);
    forall i | 0 <= i < |ss| ensures r'[i] == Renamed(ss, i, ds + [d]) {
      assert r[..|ss|][i] == r[i] == Renamed(ss, i, ds);
      if ss[i].address == d {
        LastAtCarries(ss, ds, d, keys, r, i);
      } else {
        assert r'[i] == r[i];
        assert ss[i].address in ds + [d] <==> ss[i].address in ds;
      }
    }
  }

  /** Adoption adds nothing at an address that was there, so its last entry stays put. */
  lemma LastAtCarries(ss: seq<Scheduler>, ds: seq<string>, d: string, keys: KeyMap, r: seq<Scheduler>, i: nat)
    requires Adopted(ss, ds, keys, r) && i < |ss| && ss[i].address == d
    ensures HasAddress(ss, d) && HasAddress(r, d) && LastAt(r, d) == LastAt(ss, d)
  {
    assert forall k :: 0 <= k < |ss| ==> r[..|ss|][k] == r[k] == Renamed(ss, k, ds);
    assert HasAddress(ss, d) && r[i].address == d;
    assert r[LastAt(ss, d)].address == d;
    forall j | |ss| <= j < |r| ensures r[j].address != d { assert !Clash(keys, r[i], r[j]); }
  }

  lemma CoveredMonotone(r: seq<Scheduler>, r': seq<Scheduler>, d: string, keys: KeyMap)
    requires |r| <= |r'| && forall i :: 0 <= i < |r| ==> r'[i].address == r[i].address
    ensures Covered(r, d, keys) ==> Covered(r', d, keys)
  {
    if HasAddress(r, d) {
      var i :| 0 <= i < |r| && r[i].address == d;
      assert r'[i].address == d;
    } else if KeyTaken(r, d, keys) {
      var i :| 0 <= i < |r| && Shares(keys, r[i].address, d);
      assert Shares(keys, r'[i].address, d);
    }
  }

  // --------------------------------------------------------------- filtering

  lemma {:induction false} RetainAppend(a: seq<Scheduler>, b: seq<Scheduler>, ds: seq<string>, statics: set<string>)
    ensures Retain(a + b, ds, statics) == Retain(a, ds, statics) + Retain(b, ds, statics)
  {
    if b == [] {
      assert a + b == a;
    } else {
      RetainAppend(a, b[..|b| - 1], ds, statics);
      assert (a + b)[..|a + b| - 1] == a + b[..|b| - 1];
    }
  }

  lemma {:induction false} RetainMembers(ss: seq<Scheduler>, ds: seq<string>, statics: set<string>)
    ensures forall s :: s in Retain(ss, ds, statics) <==> s in ss && Keep(s, ds, statics)
  {
    if ss != [] {
      RetainMembers(ss[..|ss| - 1], ds, statics);
      assert ss == ss[..|ss| - 1] + [ss[|ss| - 1]];
    }
  }

  lemma {:induction false} RetainAll(ss: seq<Scheduler>, ds: seq<string>, statics: set<string>)
    requires forall i :: 0 <= i < |ss| ==> Keep(ss[i], ds, statics)
    ensures Retain(ss, ds, statics) == ss
  {
    if ss != [] {
      RetainAll(ss[..|ss| - 1], ds, statics);
    }
  }

  /** What a merge produces: the surviving old entries in their order, then the
      added ones.  An added entry is a plain new entry for a discovered address
      and clashes with nothing that was there before or was added beside it. */
  lemma MergedShape(ss: seq<Scheduler>, ds: seq<string>, keys: KeyMap, statics: set<string>)
    returns (added: seq<Scheduler>)
    ensures Merged(ss, ds, keys, statics) == Retain(AllRenamed(ss, ds), ds, statics) + added
    ensures AdoptAll(ss, ds, keys) == AllRenamed(ss, ds) + added
    ensures forall j :: 0 <= j < |added| ==> added[j] == NewEntry(added[j].address) && added[j].address in ds
    ensures forall i, j :: 0 <= i < |ss| && 0 <= j < |added| ==> !Clash(keys, ss[i], added[j])
    ensures forall i, j :: 0 <= i < j < |added| ==> !Clash(keys, added[i], added[j])
  {
    AdoptAllAdopts(ss, ds, keys);
    added := AddedPart(ss, ds, keys, AdoptAll(ss, ds, keys));
    RetainAppend(AllRenamed(ss, ds), added, ds, statics);
    RetainAll(added, ds, statics);
  }

  lemma AddedPart(ss: seq<Scheduler>, ds: seq<string>, keys: KeyMap, r: seq<Scheduler>) returns (added: seq<Scheduler>)
    requires Adopted(ss, ds, keys, r)
    ensures r == AllRenamed(ss, ds) + added
    ensures forall j :: 0 <= j < |added| ==> added[j] == NewEntry(added[j].address) && added[j].address in ds
    ensures forall i, j :: 0 <= i < |ss| && 0 <= j < |added| ==> !Clash(keys, ss[i], added[j])
    ensures forall i, j :: 0 <= i < j < |added| ==> !Clash(keys, added[i], added[j])
  {
    var n := |ss|;
    added := r[n..];
    assert r == r[..n] + added;
    assert forall j :: 0 <= j < |added| ==> added[j] == r[n + j];
    forall i, j | 0 <= i < n && 0 <= j < |added| ensures !Clash(keys, ss[i], added[j]) {
      assert r[..n][i] == r[i] == Renamed(ss, i, ds);
      assert !Clash(keys, r[i], r[n + j]);
    }
    forall i, j | 0 <= i < j < |added| ensures !Clash(keys, added[i], added[j]) {
      assert !Clash(keys, r[n + i], r[n + j]);
    }
  }

  /** The entries at one address, in order. */
  function At(ss: seq<Scheduler>, a: string): seq<Scheduler> {
    if ss == [] then []
    else At(ss[..|ss| - 1], a) + if ss[|ss| - 1].address == a then [ss[|ss| - 1]] else []
  }

  lemma {:induction false} AtLast(ss: seq<Scheduler>, a: string)
    ensures HasAddress(ss, a) <==> At(ss, a) != []
    ensures HasAddress(ss, a) ==> At(ss, a)[|At(ss, a)| - 1] == ss[LastAt(ss, a)]
  {
    if ss != [] {
      var init := ss[..|ss| - 1];
      AtLast(init, a);
      if HasAddress(init, a) {
        var i :| 0 <= i < |init| && init[i].address == a;
        assert ss[i].address == a;
      }
      if HasAddress(ss, a) && ss[|ss| - 1].address != a {
        assert init[LastAt(ss, a)].address == a;
        assert LastAt(init, a) == LastAt(ss, a);
      }
    }
  }

  lemma {:induction false} AtAppend(x: seq<Scheduler>, y: seq<Scheduler>, a: string)
    ensures At(x + y, a) == At(x, a) + At(y, a)
  {
    if y == [] {
      assert x + y == x;
    } else {
      AtAppend(x, y[..|y| - 1], a);
      assert (x + y)[..|x + y| - 1] == x + y[..|y| - 1];
    }
  }

  lemma {:induction false} AtRetain(ss: seq<Scheduler>, a: string, ds: seq<string>, statics: set<string>)
    requires a in ds || a in statics
    ensures At(Retain(ss, ds, statics), a) == At(ss, a)
  {
    if ss != [] {
      var init, last := ss[..|ss| - 1], ss[|ss| - 1];
      var kept := Retain(init, ds, statics);
      AtRetain(init, a, ds, statics);
      if Keep(last, ds, statics) {
        assert Retain(ss, ds, statics) == kept + [last];
        AtAppend(kept, [last], a);
        assert [last][..0] == [];
      } else {
        assert Retain(ss, ds, statics) == kept;
      }
    }
  }

  // -------------------------------------------------------------- invariants

  ghost predicate ClashFree(ss: seq<Scheduler>, keys: KeyMap) {
    forall i, j :: 0 <= i < j < |ss| ==> !Clash(keys, ss[i], ss[j])
  }

  lemma {:induction false} RetainClashFree(ss: seq<Scheduler>, ds: seq<string>, statics: set<string>, keys: KeyMap)
    requires ClashFree(ss, keys)
    ensures ClashFree(Retain(ss, ds, statics), keys)
  {
    if ss != [] {
      var init, last := ss[..|ss| - 1], ss[|ss| - 1];
      RetainClashFree(init, ds, statics, keys);
      RetainMembers(init, ds, statics);
      forall x | x in Retain(init, ds, statics) ensures !Clash(keys, x, last) {
        var i :| 0 <= i < |init| && init[i] == x;
        assert !Clash(keys, ss[i], ss[|ss| - 1]);
      }
    }
  }

  /** A merge keeps addresses distinct and canonical keys disjoint. */
  lemma MergedClashFree(ss: seq<Scheduler>, ds: seq<string>, keys: KeyMap, statics: set<string>)
    requires ClashFree(ss, keys)
    ensures ClashFree(Merged(ss, ds, keys, statics), keys)
  {
    var added := MergedShape(ss, ds, keys, statics);
    var all := AllRenamed(ss, ds);
    var kept := Retain(all, ds, statics);
    assert ClashFree(all, keys) by {
      forall i, j | 0 <= i < j < |all| ensures !Clash(keys, all[i], all[j]) {
        assert !Clash(keys, ss[i], ss[j]);
      }
    }
    RetainClashFree(all, ds, statics, keys);
    RetainMembers(all, ds, statics);
    forall x, j | x in kept && 0 <= j < |added| ensures !Clash(keys, x, added[j]) {
      var i :| 0 <= i < |all| && all[i] == x;
      assert !Clash(keys, ss[i], added[j]);
    }
    ClashFreeAppend(kept, added, keys);
  }

  lemma ClashFreeAppend(a: seq<Scheduler>, b: seq<Scheduler>, keys: KeyMap)
    requires ClashFree(a, keys) && ClashFree(b, keys)
    requires forall x, j :: x in a && 0 <= j < |b| ==> !Clash(keys, x, b[j])
    ensures ClashFree(a + b, keys)
  {
    var r := a + b;
    forall i, j | 0 <= i < j < |r| ensures !Clash(keys, r[i], r[j]) {
      if i < |a| <= j { assert r[i] in a && r[j] == b[j - |a|]; }
      else if |a| <= i { assert r[i] == b[i - |a|] && r[j] == b[j - |a|]; }
    }
  }

  /** At a configured or discovered address that was already listed, a merge
      leaves exactly the old entries in their order, flags untouched; only an
      empty ID may be filled. */
  lemma MergedKeeps(ss: seq<Scheduler>, ds: seq<string>, keys: KeyMap, statics: set<string>, a: string)
    requires HasAddress(ss, a) && (a in statics || a in ds)
    ensures At(Merged(ss, ds, keys, statics), a) == At(AllRenamed(ss, ds), a)
  {
    var added := MergedShape(ss, ds, keys, statics);
    var i :| 0 <= i < |ss| && ss[i].address == a;
    assert !HasAddress(added, a) by {
      assert forall j :: 0 <= j < |added| ==> !Clash(keys, ss[i], added[j]);
    }
    AtLast(added, a);
    AtAppend(Retain(AllRenamed(ss, ds), ds, statics), added, a);
    AtRetain(AllRenamed(ss, ds), a, ds, statics);
  }

  /** An entry survives or was added, and every survivor is wanted: configured,
      not created by discovery, or still discovered. */
  lemma MergedDropsExactlyStale(ss: seq<Scheduler>, ds: seq<string>, keys: KeyMap, statics: set<string>)
    ensures forall s :: s in Merged(ss, ds, keys, statics) ==> Keep(s, ds, statics)
    ensures forall i :: 0 <= i < |ss| ==>
              (Renamed(ss, i, ds) in Merged(ss, ds, keys, statics) <==> Keep(ss[i], ds, statics))
  {
    var added := MergedShape(ss, ds, keys, statics);
    var kept := Retain(AllRenamed(ss, ds), ds, statics);
    RetainMembers(AllRenamed(ss, ds), ds, statics);
    RetainMembers(AdoptAll(ss, ds, keys), ds, statics);
    forall i | 0 <= i < |ss|
      ensures Renamed(ss, i, ds) in kept + added <==> Keep(ss[i], ds, statics)
    {
      var s := Renamed(ss, i, ds);
      assert AllRenamed(ss, ds)[i] == s;
      assert Keep(s, ds, statics) <==> Keep(ss[i], ds, statics);
      assert s !in added by {
        assert forall j :: 0 <= j < |added| ==> !Clash(keys, ss[i], added[j]);
      }
    }
  }

  // ---------------------------------------------------------------- fixpoint

  /** No discovered address would have an ID filled in. */
  ghost predicate AllNamed(ss: seq<Scheduler>, ds: seq<string>) {
    forall d :: d in ds && HasAddress(ss, d) ==> ss[LastAt(ss, d)].id != ""
  }

  /** Every discovered address is listed or stands for a listed endpoint. */
  ghost predicate Settled(ss: seq<Scheduler>, ds: seq<string>, keys: KeyMap) {
    forall d :: d in ds ==> Covered(ss, d, keys)
  }

  lemma AdoptAllNamed(ss: seq<Scheduler>, ds: seq<string>, keys: KeyMap)
    ensures AllNamed(AdoptAll(ss, ds, keys), ds)
  {
    AdoptAllAdopts(ss, ds, keys);
    var r := AdoptAll(ss, ds, keys);
    forall d | d in ds && HasAddress(r, d) ensures r[LastAt(r, d)].id != "" {
      var i := LastAt(r, d);
      if i < |ss| {
        assert r[..|ss|][i] == Renamed(ss, i, ds);
        assert ss[i].address == d && HasAddress(ss, d);
        assert r[..|ss|][LastAt(ss, d)].address == d;
        assert LastAt(ss, d) == i;
      }
    }
  }

  lemma MergedNamed(ss: seq<Scheduler>, ds: seq<string>, keys: KeyMap, statics: set<string>)
    ensures AllNamed(Merged(ss, ds, keys, statics), ds)
  {
    AdoptAllNamed(ss, ds, keys);
    var r, m := AdoptAll(ss, ds, keys), Merged(ss, ds, keys, statics);
    forall d | d in ds && HasAddress(m, d) ensures m[LastAt(m, d)].id != "" {
      AtRetain(r, d, ds, statics);
      AtLast(r, d);
      AtLast(m, d);
    }
  }

  lemma {:induction false} AdoptAllSettled(ss: seq<Scheduler>, ds: seq<string>, keys: KeyMap)
    requires AllNamed(ss, ds) && Settled(ss, ds, keys)
    ensures AdoptAll(ss, ds, keys) == ss
  {
    if ds != [] {
      assert forall d :: d in ds[..|ds| - 1] ==> d in ds;
      AdoptAllSettled(ss, ds[..|ds| - 1], keys);
      assert ds[|ds| - 1] in ds;
    }
  }

  // ------------------------------------------- which addresses one merge lists

  /** The discovered addresses that get an entry: in order, each one that neither
      the list nor an earlier new one stands for. */
  function NewAddresses(ss: seq<Scheduler>, ds: seq<string>, keys: KeyMap): seq<string> {
    if ds == [] then []
    else
      var before, d := NewAddresses(ss, ds[..|ds| - 1], keys), ds[|ds| - 1];
      if Covered(ss, d, keys) || d in before || SharedBy(before, d, keys) then before else before + [d]
  }

  predicate SharedBy(addresses: seq<string>, d: string, keys: KeyMap) {
    exists a :: a in addresses && Shares(keys, a, d)
  }

  /** Some entry that stays shares a canonical key with `d`. */
  predicate KeyKept(ss: seq<Scheduler>, d: string, ds: seq<string>, keys: KeyMap, statics: set<string>) {
    exists i :: 0 <= i < |ss| && Keep(ss[i], ds, statics) && Shares(keys, ss[i].address, d)
  }

  /** What the input of a merge must offer for `d` to be listed after it: `d` is
      listed already, no key of it is taken, or one is shared with an entry that
      stays or with a new one. */
  predicate Lists(ss: seq<Scheduler>, d: string, ds: seq<string>, keys: KeyMap, statics: set<string>) {
    || HasAddress(ss, d) || !KeyTaken(ss, d, keys)
    || KeyKept(ss, d, ds, keys, statics) || SharedBy(NewAddresses(ss, ds, keys), d, keys)
  }

  function Entries(addresses: seq<string>): (r: seq<Scheduler>)
    ensures |r| == |addresses|
  {
    seq(|addresses|, i requires 0 <= i < |addresses| => NewEntry(addresses[i]))
  }

  lemma CoveredByNew(ss: seq<Scheduler>, all: seq<Scheduler>, news: seq<string>, d: string, keys: KeyMap)
    requires |all| == |ss| && forall i :: 0 <= i < |ss| ==> all[i].address == ss[i].address
    ensures HasAddress(all + Entries(news), d) <==> HasAddress(ss, d) || d in news
    ensures KeyTaken(all + Entries(news), d, keys) <==> KeyTaken(ss, d, keys) || SharedBy(news, d, keys)
  {
    var r := all + Entries(news);
    assert forall i :: 0 <= i < |ss| ==> r[i].address == ss[i].address;
    assert forall i :: 0 <= i < |news| ==> r[|ss| + i].address == news[i];
    assert forall i :: |ss| <= i < |r| ==> r[i].address == news[i - |ss|];
  }

  /** Adoption appends exactly the new addresses. */
  lemma {:induction false} AdoptAllNew(ss: seq<Scheduler>, ds: seq<string>, keys: KeyMap)
    ensures AdoptAll(ss, ds, keys) == AllRenamed(ss, ds) + Entries(NewAddresses(ss, ds, keys))
  {
    if ds == [] {
      assert AllRenamed(ss, ds) == ss;
    } else {
      var ds', d := ds[..|ds| - 1], ds[|ds| - 1];
      var before := NewAddresses(ss, ds', keys);
      var r := AdoptAll(ss, ds', keys);
      AdoptAllNew(ss, ds', keys);
      assert ds == ds' + [d];
      AdoptFront(ss, ds', d, keys);
      AdoptBack(ss, AllRenamed(ss, ds'), d, keys, before);
      Glue(Adopt(r, d, keys), |ss|, AllRenamed(ss, ds), Entries(NewAddresses(ss, ds, keys)));
    }
  }

  lemma Glue(r: seq<Scheduler>, n: nat, front: seq<Scheduler>, back: seq<Scheduler>)
    requires n <= |r| && r[..n] == front && r[n..] == back
    ensures r == front + back
  {
  }

  lemma AdoptFront(ss: seq<Scheduler>, ds: seq<string>, d: string, keys: KeyMap)
    ensures
      var r' := Adopt(AdoptAll(ss, ds, keys), d, keys);
      |ss| <= |r'| && r'[..|ss|] == AllRenamed(ss, ds + [d])
  {
    AdoptAllAdopts(ss, ds, keys);
    AdoptRenames(ss, ds, d, keys, AdoptAll(ss, ds, keys));
  }

  lemma AdoptBack(ss: seq<Scheduler>, all: seq<Scheduler>, d: string, keys: KeyMap, before: seq<string>)
    requires |all| == |ss| && forall i :: 0 <= i < |ss| ==> all[i].address == ss[i].address
    ensures
      var r' := Adopt(all + Entries(before), d, keys);
      var after := if Covered(ss, d, keys) || d in before || SharedBy(before, d, keys) then before else before + [d];
      |ss| <= |r'| && r'[|ss|..] == Entries(after)
  {
    var r := all + Entries(before);
    CoveredByNew(ss, all, before, d, keys);
    assert r[|ss|..] == Entries(before);
    AdoptAppends(ss, r, d, keys, before);
  }

  lemma AdoptAppends(ss: seq<Scheduler>, r: seq<Scheduler>, d: string, keys: KeyMap, before: seq<string>)
    requires |r| == |ss| + |before| && r[|ss|..] == Entries(before)
    requires Covered(r, d, keys) <==> Covered(ss, d, keys) || d in before || SharedBy(before, d, keys)
    ensures
      var r' := Adopt(r, d, keys);
      var after := if Covered(ss, d, keys) || d in before || SharedBy(before, d, keys) then before else before + [d];
      |r'| == |ss| + |after| && r'[|ss|..] == Entries(after)
  {
    var r' := Adopt(r, d, keys);
    if HasAddress(r, d) {
      var i := LastAt(r, d);
      if i >= |ss| { assert r[i] == r[|ss|..][i - |ss|] == NewEntry(before[i - |ss|]); }
    } else if !KeyTaken(r, d, keys) {
      assert r' == r + [NewEntry(d)];
      assert Entries(before + [d]) == Entries(before) + [NewEntry(d)];
    }
  }

  lemma AddressSurvives(ss: seq<Scheduler>, ds: seq<string>, keys: KeyMap, statics: set<string>, d: string)
    requires d in ds
    ensures HasAddress(Merged(ss, ds, keys, statics), d) <==> HasAddress(ss, d) || d in NewAddresses(ss, ds, keys)
  {
    var r := AdoptAll(ss, ds, keys);
    AdoptAllNew(ss, ds, keys);
    CoveredByNew(ss, AllRenamed(ss, ds), NewAddresses(ss, ds, keys), d, keys);
    AtRetain(r, d, ds, statics);
    AtLast(r, d);
    AtLast(Merged(ss, ds, keys, statics), d);
  }

  lemma KeySurvives(ss: seq<Scheduler>, ds: seq<string>, keys: KeyMap, statics: set<string>, d: string)
    ensures KeyTaken(Merged(ss, ds, keys, statics), d, keys) <==>
            KeyKept(ss, d, ds, keys, statics) || SharedBy(NewAddresses(ss, ds, keys), d, keys)
  {
    AdoptAllNew(ss, ds, keys);
    NewAreDiscovered(ss, ds, keys);
    var news := NewAddresses(ss, ds, keys);
    RetainedKeys(AllRenamed(ss, ds), news, ds, keys, statics, d);
    assert KeyKept(AllRenamed(ss, ds), d, ds, keys, statics) <==> KeyKept(ss, d, ds, keys, statics) by {
      assert forall i :: 0 <= i < |ss| ==>
        AllRenamed(ss, ds)[i].address == ss[i].address &&
        (Keep(AllRenamed(ss, ds)[i], ds, statics) <==> Keep(ss[i], ds, statics));
    }
  }

  lemma RetainedKeys(all: seq<Scheduler>, news: seq<string>, ds: seq<string>, keys: KeyMap, statics: set<string>,
                     d: string)
    requires forall a :: a in news ==> a in ds
    ensures KeyTaken(Retain(all + Entries(news), ds, statics), d, keys) <==>
            KeyKept(all, d, ds, keys, statics) || SharedBy(news, d, keys)
  {
    var r := all + Entries(news);
    RetainTaken(r, d, ds, keys, statics);
    if KeyKept(all, d, ds, keys, statics) {
      var i :| 0 <= i < |all| && Keep(all[i], ds, statics) && Shares(keys, all[i].address, d);
      assert r[i] == all[i];
    }
    if a :| a in news && Shares(keys, a, d) {
      var j :| 0 <= j < |news| && news[j] == a;
      assert r[|all| + j] == NewEntry(a);
    }
    if KeyKept(r, d, ds, keys, statics) {
      var i :| 0 <= i < |r| && Keep(r[i], ds, statics) && Shares(keys, r[i].address, d);
      if i < |all| {
        assert r[i] == all[i];
      } else {
        assert r[i] == NewEntry(news[i - |all|]) && news[i - |all|] in news;
      }
    }
  }

  lemma RetainTaken(r: seq<Scheduler>, d: string, ds: seq<string>, keys: KeyMap, statics: set<string>)
    ensures KeyTaken(Retain(r, ds, statics), d, keys) <==> KeyKept(r, d, ds, keys, statics)
  {
    var m := Retain(r, ds, statics);
    RetainMembers(r, ds, statics);
    if i :| 0 <= i < |r| && Keep(r[i], ds, statics) && Shares(keys, r[i].address, d) {
      assert r[i] in m;
    }
    if i :| 0 <= i < |m| && Shares(keys, m[i].address, d) {
      assert m[i] in m;
    }
  }

  lemma {:induction false} NewAreDiscovered(ss: seq<Scheduler>, ds: seq<string>, keys: KeyMap)
    ensures forall a :: a in NewAddresses(ss, ds, keys) ==> a in ds
  {
    if ds != [] { NewAreDiscovered(ss, ds[..|ds| - 1], keys); }
  }

  lemma {:induction false} UntakenIsNew(ss: seq<Scheduler>, ds: seq<string>, keys: KeyMap, d: string)
    requires d in ds && !Covered(ss, d, keys)
    ensures d in NewAddresses(ss, ds, keys) || SharedBy(NewAddresses(ss, ds, keys), d, keys)
  {
    var init := ds[..|ds| - 1];
    if d in init {
      UntakenIsNew(ss, init, keys, d);
    } else {
      assert ds[|ds| - 1] == d;
    }
  }

  /** After one merge a discovered address is listed, or stands for a listed
      endpoint, exactly when the input offers one of four things. */
  lemma ListedIff(ss: seq<Scheduler>, ds: seq<string>, keys: KeyMap, statics: set<string>, d: string)
    requires d in ds
    ensures Covered(Merged(ss, ds, keys, statics), d, keys) <==> Lists(ss, d, ds, keys, statics)
  {
    AddressSurvives(ss, ds, keys, statics, d);
    KeySurvives(ss, ds, keys, statics, d);
    if !Covered(ss, d, keys) { UntakenIsNew(ss, ds, keys, d); }
    if d in NewAddresses(ss, ds, keys) { NewIsUncovered(ss, ds, keys, d); }
  }

  lemma {:induction false} NewIsUncovered(ss: seq<Scheduler>, ds: seq<string>, keys: KeyMap, d: string)
    requires d in NewAddresses(ss, ds, keys)
    ensures !Covered(ss, d, keys)
  {
    var init := ds[..|ds| - 1];
    if d in NewAddresses(ss, init, keys) { NewIsUncovered(ss, init, keys, d); }
  }

  /** A second merge with the same discovery result changes nothing but to add
      entries, and adds none exactly when the input of the first one offers what
      every discovered address needs. */
  lemma SecondMerge(ss: seq<Scheduler>, ds: seq<string>, keys: KeyMap, statics: set<string>)
    ensures
      var m := Merged(ss, ds, keys, statics);
      var m2 := Merged(m, ds, keys, statics);
      && m <= m2
      && m2 == AdoptAll(m, ds, keys)
      && (m2 == m <==> Settled(m, ds, keys))
      && (m2 == m <==> forall d :: d in ds ==> Lists(ss, d, ds, keys, statics))
  {
    var m := Merged(ss, ds, keys, statics);
    SecondMergeSettles(ss, ds, keys, statics);
    forall d | d in ds ensures Covered(m, d, keys) <==> Lists(ss, d, ds, keys, statics) {
      ListedIff(ss, ds, keys, statics, d);
    }
  }

  lemma SecondMergeSettles(ss: seq<Scheduler>, ds: seq<string>, keys: KeyMap, statics: set<string>)
    ensures
      var m := Merged(ss, ds, keys, statics);
      var m2 := Merged(m, ds, keys, statics);
      m <= m2 && m2 == AdoptAll(m, ds, keys) && (m2 == m <==> Settled(m, ds, keys))
  {
    var m := Merged(ss, ds, keys, statics);
    MergedNamed(ss, ds, keys, statics);
    var added := MergedShape(m, ds, keys, statics);
    assert AllRenamed(m, ds) == m;
    RetainMembers(AdoptAll(ss, ds, keys), ds, statics);
    assert forall i :: 0 <= i < |m| ==> m[i] in m;
    RetainAll(m, ds, statics);
    if Settled(m, ds, keys) {
      AdoptAllSettled(m, ds, keys);
    }
    AdoptAllAdopts(m, ds, keys);
  }

  /** Two merges reach a fixpoint: the third changes nothing. */
  lemma MergeFixpoint(ss: seq<Scheduler>, ds: seq<string>, keys: KeyMap, statics: set<string>)
    ensures
      var m2 := Merged(Merged(ss, ds, keys, statics), ds, keys, statics);
      Merged(m2, ds, keys, statics) == m2
  {
    var m := Merged(ss, ds, keys, statics);
    SecondMergeSettles(ss, ds, keys, statics);
    var m2 := Merged(m, ds, keys, statics);
    AdoptAllAdopts(m, ds, keys);
    SecondMergeSettles(m, ds, keys, statics);
  }

  /** One merge is enough when no stale entry shares a canonical key with a
      discovered address. */
  lemma MergeOnceEnough(ss: seq<Scheduler>, ds: seq<string>, keys: KeyMap, statics: set<string>)
    requires forall i, d :: 0 <= i < |ss| && !Keep(ss[i], ds, statics) && d in ds ==> !Shares(keys, ss[i].address, d)
    ensures
      var m := Merged(ss, ds, keys, statics);
      Settled(m, ds, keys) && Merged(m, ds, keys, statics) == m
  {
    var r, m := AdoptAll(ss, ds, keys), Merged(ss, ds, keys, statics);
    AdoptAllAdopts(ss, ds, keys);
    RetainMembers(r, ds, statics);
    forall d | d in ds ensures Covered(m, d, keys) {
      AtRetain(r, d, ds, statics);
      AtLast(r, d);
      AtLast(m, d);
      if !HasAddress(r, d) {
        var i :| 0 <= i < |r| && Shares(keys, r[i].address, d);
        assert Keep(r[i], ds, statics) by {
          if i < |ss| { assert r[..|ss|][i] == Renamed(ss, i, ds); }
        }
        var j :| 0 <= j < |m| && m[j] == r[i];
        assert Shares(keys, m[j].address, d);
      }
    }
    SecondMerge(ss, ds, keys, statics);
  }

  /** Without that condition a backend can be lost for one round: a stale entry
      hides its own replacement and is then dropped. */
  lemma StaleEntryHidesReplacement(a: string, b: string, keys: KeyMap)
    requires a != b && Shares(keys, a, b)
    ensures Merged([NewEntry(a)], [b], keys, {}) == []
    ensures Merged([], [b], keys, {}) == [NewEntry(b)]
  {
    AdoptOne([NewEntry(a)], b, keys);
    AdoptOne([], b, keys);
    RetainNew(a, [b]);
    RetainNew(b, [b]);
  }

  lemma RetainNew(a: string, ds: seq<string>)
    ensures Retain([NewEntry(a)], ds, {}) == if a in ds then [NewEntry(a)] else []
  {
    assert [NewEntry(a)][..0] == [];
    assert Keep(NewEntry(a), ds, {}) <==> a in ds;
  }

  lemma AdoptOne(ss: seq<Scheduler>, b: string, keys: KeyMap)
    requires |ss| <= 1 && (ss != [] ==> ss[0].address != b && Shares(keys, ss[0].address, b))
    ensures AdoptAll(ss, [b], keys) == if ss == [] then [NewEntry(b)] else ss
  {
    assert [b][..0] == [];
    assert AdoptAll(ss, [b], keys) == Adopt(ss, b, keys);
  }
}
