/** `sort.SliceStable`: a stable sort, the facts that determine it uniquely,
    and the case of distinct keys, where the input order stops mattering. */
module Sorting {

  ghost predicate TotalPreorder<T(!new)>(le: (T, T) -> bool) {
    && (forall a, b :: le(a, b) || le(b, a))
    && (forall a, b, c :: le(a, b) && le(b, c) ==> le(a, c))
  }

  predicate Sorted<T>(s: seq<T>, le: (T, T) -> bool) {
    forall i, j :: 0 <= i < j < |s| ==> le(s[i], s[j])
  }

  /** The elements of `s` that compare equal to `x`, in their order in `s`. */
  function Ties<T>(s: seq<T>, x: T, le: (T, T) -> bool): (r: seq<T>) {
    if s == [] then []
    else (if le(s[0], x) && le(x, s[0]) then [s[0]] else []) + Ties(s[1..], x, le)
  }

  /** Puts `x` in front of every element it does not exceed. */
  function Insert<T>(x: T, s: seq<T>, le: (T, T) -> bool): (r: seq<T>)
    ensures multiset(r) == multiset(s) + multiset{x}
    ensures |r| == |s| + 1
  {
    if s == [] || le(x, s[0]) then [x] + s
    else
      assert s == [s[0]] + s[1..];
      [s[0]] + Insert(x, s[1..], le)
  }

  function StableSort<T>(s: seq<T>, le: (T, T) -> bool): (r: seq<T>)
    ensures multiset(r) == multiset(s)
    ensures |r| == |s|
  {
    if s == [] then []
    else
      assert s == [s[0]] + s[1..];
      Insert(s[0], StableSort(s[1..], le), le)
  }

  lemma {:induction false} InsertSorted<T(!new)>(x: T, s: seq<T>, le: (T, T) -> bool)
    requires TotalPreorder(le) && Sorted(s, le)
    ensures Sorted(Insert(x, s, le), le)
  {
    if s != [] && !le(x, s[0]) {
      InsertSorted(x, s[1..], le);
      var r := Insert(x, s[1..], le);
      forall j | 0 <= j < |r| ensures le(s[0], r[j]) {
        assert r[j] in multiset(r);
        assert r[j] in multiset(s[1..]) || r[j] == x;
      }
    }
  }

  lemma {:induction false} InsertTies<T(!new)>(x: T, s: seq<T>, y: T, le: (T, T) -> bool)
    requires TotalPreorder(le)
    ensures Ties(Insert(x, s, le), y, le) == Ties([x] + s, y, le)
  {
    if s != [] && !le(x, s[0]) {
      InsertTies(x, s[1..], y, le);
      var r := Insert(x, s[1..], le);
      assert ([x] + s)[1..] == s && ([x] + s[1..])[1..] == s[1..] && ([s[0]] + r)[1..] == r;
      assert !(le(x, y) && le(y, x) && le(s[0], y) && le(y, s[0]));
    }
  }

  /** The sort is sorted and stable. */
  lemma {:induction false} StableSortCorrect<T(!new)>(s: seq<T>, le: (T, T) -> bool)
    requires TotalPreorder(le)
    ensures Sorted(StableSort(s, le), le)
    ensures forall y :: Ties(StableSort(s, le), y, le) == Ties(s, y, le)
  {
    if s != [] {
      var t := StableSort(s[1..], le);
      StableSortCorrect(s[1..], le);
      InsertSorted(s[0], t, le);
      forall y ensures Ties(StableSort(s, le), y, le) == Ties(s, y, le) {
        InsertTies(s[0], t, y, le);
        assert ([s[0]] + t)[1..] == t;
      }
    }
  }

  lemma {:induction false} TiesMember<T(!new)>(s: seq<T>, x: T, le: (T, T) -> bool)
    requires TotalPreorder(le)
    ensures x in s <==> x in Ties(s, x, le)
  {
    if s != [] { TiesMember(s[1..], x, le); }
  }

  /** A sorted, stable rearrangement is unique, so any stable sort computes this one. */
  lemma {:induction false} SortedTiesUnique<T(!new)>(t: seq<T>, u: seq<T>, le: (T, T) -> bool)
    requires TotalPreorder(le) && Sorted(t, le) && Sorted(u, le)
    requires |t| == |u| && forall y :: Ties(t, y, le) == Ties(u, y, le)
    ensures t == u
  {
    if t != [] {
      TiesMember(t, t[0], le);
      TiesMember(u, t[0], le);
      TiesMember(u, u[0], le);
      TiesMember(t, u[0], le);
      assert le(t[0], u[0]) && le(u[0], t[0]);
      assert Ties(t, t[0], le)[0] == t[0] && Ties(u, t[0], le)[0] == u[0];
      forall y ensures Ties(t[1..], y, le) == Ties(u[1..], y, le) {
        assert Ties(t, y, le) == Ties(u, y, le);
        var head := if le(t[0], y) && le(y, t[0]) then [t[0]] else [];
        assert Ties(t, y, le)[|head|..] == Ties(t[1..], y, le);
        assert Ties(u, y, le)[|head|..] == Ties(u[1..], y, le);
      }
      SortedTiesUnique(t[1..], u[1..], le);
      assert t == [t[0]] + t[1..] && u == [u[0]] + u[1..];
    }
  }

  /** Members of `s` that compare equal are the same value. */
  ghost predicate KeysIdentify<T>(s: seq<T>, le: (T, T) -> bool) {
    forall x, y :: x in s && y in s && le(x, y) && le(y, x) ==> x == y
  }

  lemma HeadIsLeast<T(!new)>(t: seq<T>, x: T, le: (T, T) -> bool)
    requires TotalPreorder(le) && Sorted(t, le) && x in t
    ensures le(t[0], x)
  {
    var k :| 0 <= k < |t| && t[k] == x;
  }

  lemma TailFacts<T(!new)>(t: seq<T>, le: (T, T) -> bool)
    requires t != [] && Sorted(t, le)
    ensures Sorted(t[1..], le) && (KeysIdentify(t, le) ==> KeysIdentify(t[1..], le))
  {
    if KeysIdentify(t, le) {
      forall x, y | x in t[1..] && y in t[1..] && le(x, y) && le(y, x) ensures x == y {
        assert x in t && y in t;
      }
    }
  }

  lemma SameHead<T(!new)>(t: seq<T>, u: seq<T>, le: (T, T) -> bool)
    requires TotalPreorder(le) && Sorted(t, le) && Sorted(u, le) && t != [] && u != []
    requires multiset(t) == multiset(u) && KeysIdentify(t, le)
    ensures t[0] == u[0]
  {
    assert t[0] in multiset(u) && u[0] in multiset(t);
    HeadIsLeast(u, t[0], le);
    HeadIsLeast(t, u[0], le);
  }

  lemma {:induction false} SortedPermutationUnique<T(!new)>(t: seq<T>, u: seq<T>, le: (T, T) -> bool)
    requires TotalPreorder(le) && Sorted(t, le) && Sorted(u, le)
    requires multiset(t) == multiset(u) && KeysIdentify(t, le)
    ensures t == u
  {
    assert |u| == |multiset(u)| == |multiset(t)| == |t|;
    if t != [] {
      SameHead(t, u, le);
      assert t == [t[0]] + t[1..] && u == [u[0]] + u[1..];
      assert multiset(t[1..]) == multiset(t) - multiset{t[0]} == multiset(u[1..]);
      TailFacts(t, le);
      TailFacts(u, le);
      SortedPermutationUnique(t[1..], u[1..], le);
    }
  }

  /** When keys identify values, the sort does not depend on the order of the input. */
  lemma StableSortOrderFree<T(!new)>(s: seq<T>, t: seq<T>, le: (T, T) -> bool)
    requires TotalPreorder(le) && multiset(s) == multiset(t) && KeysIdentify(s, le)
    ensures StableSort(s, le) == StableSort(t, le)
  {
    StableSortCorrect(s, le);
    StableSortCorrect(t, le);
    var u := StableSort(s, le);
    forall x | x in u ensures x in s { assert x in multiset(u); }
    SortedPermutationUnique(u, StableSort(t, le), le);
  }
}
