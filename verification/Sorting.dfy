/** Array.prototype.sort, which is stable, as an insertion sort. */
module Sorting {

  ghost predicate TotalPreorder<T(!new)>(leq: (T, T) -> bool) {
    && (forall x, y :: leq(x, y) || leq(y, x))
    && (forall x, y, z :: leq(x, y) && leq(y, z) ==> leq(x, z))
  }

  ghost predicate SortedBy<T>(leq: (T, T) -> bool, s: seq<T>) {
    forall i, j :: 0 <= i < j < |s| ==> leq(s[i], s[j])
  }

  ghost predicate NoDuplicates<T>(s: seq<T>) {
    forall i, j :: 0 <= i < j < |s| ==> s[i] != s[j]
  }

  function Insert<T>(leq: (T, T) -> bool, x: T, s: seq<T>): seq<T> {
    if s == [] || leq(x, s[0]) then [x] + s else [s[0]] + Insert(leq, x, s[1..])
  }

  function Sort<T>(leq: (T, T) -> bool, s: seq<T>): seq<T> {
    if s == [] then [] else Insert(leq, s[0], Sort(leq, s[1..]))
  }

  lemma {:induction false} InsertPermutes<T>(leq: (T, T) -> bool, x: T, s: seq<T>)
    ensures multiset(Insert(leq, x, s)) == multiset{x} + multiset(s)
  {
    if s != [] && !leq(x, s[0]) {
      InsertPermutes(leq, x, s[1..]);
      assert s == [s[0]] + s[1..];
    }
  }

  lemma {:induction false} InsertSorts<T(!new)>(leq: (T, T) -> bool, x: T, s: seq<T>)
    requires TotalPreorder(leq) && SortedBy(leq, s)
    ensures SortedBy(leq, Insert(leq, x, s))
  {
    if s != [] && !leq(x, s[0]) {
      InsertSorts(leq, x, s[1..]);
      InsertPermutes(leq, x, s[1..]);
      var rest := Insert(leq, x, s[1..]);
      forall j | 0 <= j < |rest| ensures leq(s[0], rest[j]) {
        assert rest[j] in multiset(rest);
        assert rest[j] == x || rest[j] in s[1..];
      }
    }
  }

  lemma {:induction false} SortPermutes<T>(leq: (T, T) -> bool, s: seq<T>)
    ensures multiset(Sort(leq, s)) == multiset(s)
    ensures |Sort(leq, s)| == |s|
    ensures forall x :: x in Sort(leq, s) <==> x in s
  {
    if s != [] {
      SortPermutes(leq, s[1..]);
      InsertPermutes(leq, s[0], Sort(leq, s[1..]));
      assert s == [s[0]] + s[1..];
    }
    assert |multiset(Sort(leq, s))| == |Sort(leq, s)| && |multiset(s)| == |s|;
    forall x ensures x in Sort(leq, s) <==> x in s {
      assert x in Sort(leq, s) <==> x in multiset(Sort(leq, s));
      assert x in s <==> x in multiset(s);
    }
  }

  lemma {:induction false} SortSorts<T(!new)>(leq: (T, T) -> bool, s: seq<T>)
    requires TotalPreorder(leq)
    ensures SortedBy(leq, Sort(leq, s))
  {
    if s != [] {
      SortSorts(leq, s[1..]);
      InsertSorts(leq, s[0], Sort(leq, s[1..]));
    }
  }

  lemma DistinctMeansMultiplicityOne<T>(s: seq<T>)
    ensures NoDuplicates(s) <==> forall x :: x in s ==> multiset(s)[x] == 1
  {
    if s != [] {
      DistinctMeansMultiplicityOne(s[1..]);
      assert s == [s[0]] + s[1..];
      assert multiset(s) == multiset{s[0]} + multiset(s[1..]);
      if NoDuplicates(s) {
        forall x | x in s ensures multiset(s)[x] == 1 {
          if x in s[1..] { assert multiset(s[1..])[x] == 1; }
        }
      } else {
        var i, j :| 0 <= i < j < |s| && s[i] == s[j];
        if i == 0 {
          assert s[1..][j - 1] == s[0];
          assert s[0] in s && multiset(s)[s[0]] == 1 + multiset(s[1..])[s[0]];
        } else {
          assert s[1..][i - 1] == s[1..][j - 1];
          var x :| x in s[1..] && multiset(s[1..])[x] != 1;
          assert x in multiset(s[1..]) && multiset(s)[x] >= multiset(s[1..])[x];
        }
      }
    }
  }

  lemma SortKeepsDistinct<T>(leq: (T, T) -> bool, s: seq<T>)
    requires NoDuplicates(s)
    ensures NoDuplicates(Sort(leq, s))
  {
    SortPermutes(leq, s);
    DistinctMeansMultiplicityOne(s);
    DistinctMeansMultiplicityOne(Sort(leq, s));
  }

  lemma HeadIsMember<T>(s: seq<T>)
    requires s != []
    ensures s[0] in s
  {}

  /** A duplicate-free sequence sorted by an antisymmetric order is determined by its elements. */
  lemma {:induction false} SortedUnique<T(!new)>(leq: (T, T) -> bool, a: seq<T>, b: seq<T>)
    requires TotalPreorder(leq)
    requires forall x, y :: x in a && y in a && leq(x, y) && leq(y, x) ==> x == y
    requires SortedBy(leq, a) && SortedBy(leq, b) && NoDuplicates(a) && NoDuplicates(b)
    requires forall x :: x in a <==> x in b
    ensures a == b
  {
    if a == [] {
      if b != [] { HeadIsMember(b); }
    } else {
      assert a[0] in b;
      assert b[0] in a;
      assert leq(a[0], b[0]) && leq(b[0], a[0]);
      forall x ensures x in a[1..] <==> x in b[1..] {
        if x in a[1..] { assert x in b; }
        if x in b[1..] { assert x in a; }
      }
      SortedUnique(leq, a[1..], b[1..]);
    }
  }
}
