/** The order in which JavaScript compares and sorts strings: by UTF-16 code unit. */
module KeyOrder {
  import opened Sorting

  /** The UTF-16 code units of a scalar value. */
  function Units(c: char): seq<int> {
    var n := c as int;
    if n < 0x10000 then [n] else [0xD800 + (n - 0x10000) / 0x400, 0xDC00 + (n - 0x10000) % 0x400]
  }

  function UnitsOf(s: string): seq<int> {
    if s == "" then [] else Units(s[0]) + UnitsOf(s[1..])
  }

  predicate UnitsLess(a: seq<int>, b: seq<int>) {
    b != [] && (a == [] || a[0] < b[0] || (a[0] == b[0] && UnitsLess(a[1..], b[1..])))
  }

  /** Scalars above U+FFFF are written with surrogates, so they sort before U+E000..U+FFFF. */
  function Rank(c: char): int {
    var n := c as int;
    if 0xE000 <= n < 0x10000 then n + 0x200000 else n
  }

  predicate KeyLess(a: string, b: string) {
    b != "" && (a == "" || Rank(a[0]) < Rank(b[0]) || (a[0] == b[0] && KeyLess(a[1..], b[1..])))
  }

  predicate KeyLeq(a: string, b: string) { a == b || KeyLess(a, b) }

  lemma RankIsInjective(c: char, d: char)
    ensures Rank(c) == Rank(d) <==> c == d
  {}

  /** Ranks order single scalars as their code units do, whatever follows them. */
  lemma UnitsOrderScalars(c: char, d: char, x: seq<int>, y: seq<int>)
    ensures c != d ==> (UnitsLess(Units(c) + x, Units(d) + y) <==> Rank(c) < Rank(d))
    ensures c == d ==> (UnitsLess(Units(c) + x, Units(d) + y) <==> UnitsLess(x, y))
  {
    var a, b := Units(c) + x, Units(d) + y;
    assert a[1..] == Units(c)[1..] + x && b[1..] == Units(d)[1..] + y;
    if |Units(c)| == 2 && |Units(d)| == 2 {
      assert a[1..][1..] == x && b[1..][1..] == y;
      var m, n := c as int - 0x10000, d as int - 0x10000;
      assert m == m / 0x400 * 0x400 + m % 0x400 && n == n / 0x400 * 0x400 + n % 0x400;
    } else if |Units(c)| == 1 && |Units(d)| == 1 {
      assert a[1..] == x && b[1..] == y;
    }
  }

  lemma {:induction false} KeyLessIsUnitsLess(a: string, b: string)
    ensures KeyLess(a, b) <==> UnitsLess(UnitsOf(a), UnitsOf(b))
  {
    if a != "" && b != "" {
      UnitsOrderScalars(a[0], b[0], UnitsOf(a[1..]), UnitsOf(b[1..]));
      RankIsInjective(a[0], b[0]);
      KeyLessIsUnitsLess(a[1..], b[1..]);
    }
  }

  lemma {:induction false} KeyLessIrreflexive(a: string)
    ensures !KeyLess(a, a)
  {
    if a != "" { KeyLessIrreflexive(a[1..]); }
  }

  lemma {:induction false} KeyLessTotal(a: string, b: string)
    ensures a == b || KeyLess(a, b) || KeyLess(b, a)
  {
    if a != "" && b != "" {
      RankIsInjective(a[0], b[0]);
      KeyLessTotal(a[1..], b[1..]);
      assert a[1..] == b[1..] && a[0] == b[0] ==> a == [a[0]] + a[1..] == b;
    }
  }

  lemma {:induction false} KeyLessTransitive(a: string, b: string, c: string)
    requires KeyLess(a, b) && KeyLess(b, c)
    ensures KeyLess(a, c)
  {
    if a != "" {
      RankIsInjective(a[0], b[0]);
      RankIsInjective(b[0], c[0]);
      if a[0] == b[0] && b[0] == c[0] { KeyLessTransitive(a[1..], b[1..], c[1..]); }
    }
  }

  lemma KeyLessAsymmetric(a: string, b: string)
    requires KeyLess(a, b)
    ensures !KeyLess(b, a)
  {
    if KeyLess(b, a) {
      KeyLessTransitive(a, b, a);
      KeyLessIrreflexive(a);
    }
  }

  lemma KeyLeqIsOrder()
    ensures TotalPreorder((a: string, b: string) => KeyLeq(a, b))
    ensures forall x, y :: KeyLeq(x, y) && KeyLeq(y, x) ==> x == y
  {
    var leq := (a: string, b: string) => KeyLeq(a, b);
    forall x, y ensures leq(x, y) || leq(y, x) { KeyLessTotal(x, y); }
    forall x, y, z | leq(x, y) && leq(y, z) ensures leq(x, z) {
      if KeyLess(x, y) && KeyLess(y, z) { KeyLessTransitive(x, y, z); }
    }
    forall x, y | KeyLeq(x, y) && KeyLeq(y, x) ensures x == y {
      if KeyLess(x, y) { KeyLessAsymmetric(x, y); }
    }
  }

  /** Everything between two keys with a prefix has the prefix. */
  lemma {:induction false} PrefixesAreContiguous(p: string, a: string, b: string, c: string)
    requires p <= a && p <= c && KeyLess(a, b) && KeyLess(b, c)
    ensures p <= b
  {
    if p != "" {
      RankIsInjective(a[0], b[0]);
      RankIsInjective(b[0], c[0]);
      PrefixesAreContiguous(p[1..], a[1..], b[1..], c[1..]);
      assert p == [p[0]] + p[1..] && b == [b[0]] + b[1..];
    }
  }

  function SortKeys(keys: seq<string>): seq<string> {
    Sort((a: string, b: string) => KeyLeq(a, b), keys)
  }

  ghost predicate Ascending(keys: seq<string>) {
    forall i, j :: 0 <= i < j < |keys| ==> KeyLess(keys[i], keys[j])
  }

  lemma SortKeysAscends(keys: seq<string>)
    requires NoDuplicates(keys)
    ensures Ascending(SortKeys(keys))
    ensures |SortKeys(keys)| == |keys| && forall k :: k in SortKeys(keys) <==> k in keys
  {
    var leq := (a: string, b: string) => KeyLeq(a, b);
    KeyLeqIsOrder();
    SortSorts(leq, keys);
    SortPermutes(leq, keys);
    SortKeepsDistinct(leq, keys);
    var s := SortKeys(keys);
    forall i, j | 0 <= i < j < |s| ensures KeyLess(s[i], s[j]) {
      assert leq(s[i], s[j]);
    }
  }
}
