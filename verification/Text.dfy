/** Go string helpers used across the services: `strings.TrimSpace`,
    `strings.HasPrefix` and the `<` order on strings.  A string is a sequence
    of Unicode scalar values; Go compares UTF-8 bytes, which orders valid
    strings the same way. */
module Text {

  /** Unicode White_Space, the characters `strings.TrimSpace` removes. */
  predicate IsSpace(c: char) {
    var n := c as int;
    9 <= n <= 13 || n == 32 || n == 0x85 || n == 0xA0 || n == 0x1680 ||
    0x2000 <= n <= 0x200A || n == 0x2028 || n == 0x2029 || n == 0x202F || n == 0x205F || n == 0x3000
  }

  function TrimLeft(s: string): (r: string)
    ensures r == "" || !IsSpace(r[0])
    ensures |r| <= |s|
  {
    if s != "" && IsSpace(s[0]) then TrimLeft(s[1..]) else s
  }

  function TrimRight(s: string): (r: string)
    ensures r == "" || !IsSpace(r[|r| - 1])
    ensures r <= s
  {
    if s != "" && IsSpace(s[|s| - 1]) then TrimRight(s[..|s| - 1]) else s
  }

  function TrimSpace(s: string): (r: string)
    ensures r != "" ==> !IsSpace(r[0]) && !IsSpace(r[|r| - 1])
  {
    TrimRight(TrimLeft(s))
  }

  predicate AllSpace(s: string) {
    forall i :: 0 <= i < |s| ==> IsSpace(s[i])
  }

  lemma {:induction false} TrimLeftExact(s: string) returns (l: string)
    ensures s == l + TrimLeft(s) && AllSpace(l)
  {
    l := "";
    if s != "" && IsSpace(s[0]) {
      l := TrimLeftExact(s[1..]);
      assert s == [s[0]] + s[1..];
      l := [s[0]] + l;
    }
  }

  lemma {:induction false} TrimRightExact(s: string) returns (r: string)
    ensures s == TrimRight(s) + r && AllSpace(r)
  {
    r := "";
    if s != "" && IsSpace(s[|s| - 1]) {
      r := TrimRightExact(s[..|s| - 1]);
      assert s == s[..|s| - 1] + [s[|s| - 1]];
      r := r + [s[|s| - 1]];
    }
  }

  /** Only white space at the two ends is removed, and all of it. */
  lemma TrimSpaceExact(s: string) returns (l: string, r: string)
    ensures s == l + TrimSpace(s) + r && AllSpace(l) && AllSpace(r)
    ensures TrimSpace(s) != "" ==> !IsSpace(TrimSpace(s)[0]) && !IsSpace(TrimSpace(s)[|TrimSpace(s)| - 1])
  {
    l := TrimLeftExact(s);
    r := TrimRightExact(TrimLeft(s));
  }

  lemma TrimNothing(s: string)
    requires s != "" ==> !IsSpace(s[0]) && !IsSpace(s[|s| - 1])
    ensures TrimSpace(s) == s
  {
    assert TrimLeft(s) == s && TrimRight(s) == s;
  }

  predicate HasPrefix(s: string, prefix: string) {
    prefix <= s
  }

  /** Lexicographic `a <= b`. */
  predicate LexLe(a: string, b: string) {
    a == "" || (b != "" && (a[0] < b[0] || (a[0] == b[0] && LexLe(a[1..], b[1..]))))
  }

  lemma LexLeTotal(a: string, b: string)
    ensures LexLe(a, b) || LexLe(b, a)
  {
  }

  lemma LexLeAntisymmetric(a: string, b: string)
    requires LexLe(a, b) && LexLe(b, a)
    ensures a == b
  {
    if a != "" && b != "" {
      LexLeAntisymmetric(a[1..], b[1..]);
      assert a == [a[0]] + a[1..] && b == [b[0]] + b[1..];
    }
  }

  lemma LexLeTransitive(a: string, b: string, c: string)
    requires LexLe(a, b) && LexLe(b, c)
    ensures LexLe(a, c)
  {
  }
}
