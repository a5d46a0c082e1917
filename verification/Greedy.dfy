/** Taking the cheapest items first is largest in number. */
module Greedy {
  import opened Sorting

  function Total<T>(size: T -> nat, items: seq<T>): nat {
    if items == [] then 0 else size(items[0]) + Total(size, items[1..])
  }

  function Cheaper<T>(size: T -> nat): (T, T) -> bool { (a: T, b: T) => size(a) <= size(b) }

  /** How many of the items, in this order, fit the room. */
  function FitCount<T>(size: T -> nat, items: seq<T>, room: int): (n: nat)
    ensures n <= |items|
  {
    if items == [] || size(items[0]) > room then 0 else 1 + FitCount(size, items[1..], room - size(items[0]))
  }

  lemma CheaperIsOrder<T(!new)>(size: T -> nat)
    ensures TotalPreorder(Cheaper(size))
  {}

  /** One step from the front of a longer list. */
  lemma {:induction false} FitCountNext<T>(size: T -> nat, items: seq<T>, room: int, i: nat)
    requires i < |items| && i <= FitCount(size, items, room)
    ensures i < FitCount(size, items, room) <==> Total(size, items[..i]) + size(items[i]) <= room
    ensures Total(size, items[..i + 1]) == Total(size, items[..i]) + size(items[i])
  {
    if i > 0 {
      FitCountNext(size, items[1..], room - size(items[0]), i - 1);
      assert items[1..][..i] == items[..i + 1][1..] && items[1..][..i - 1] == items[..i][1..];
    } else {
      assert items[..1][1..] == [];
    }
  }

  lemma {:induction false} FitFits<T>(size: T -> nat, items: seq<T>, room: int)
    ensures room >= 0 ==> Total(size, items[..FitCount(size, items, room)]) <= room
    ensures room < 0 ==> FitCount(size, items, room) == 0
  {
    if items != [] && size(items[0]) <= room {
      FitFits(size, items[1..], room - size(items[0]));
      var n := FitCount(size, items, room);
      assert items[..n][1..] == items[1..][..n - 1];
    }
  }

  function Without<T>(t: seq<T>, i: nat): (r: seq<T>)
    requires i < |t|
    ensures |r| == |t| - 1 && multiset(r) == multiset(t) - multiset{t[i]}
  {
    assert t == t[..i] + [t[i]] + t[i + 1..];
    t[..i] + t[i + 1..]
  }

  lemma {:induction false} TotalOfConcat<T>(size: T -> nat, a: seq<T>, b: seq<T>)
    ensures Total(size, a + b) == Total(size, a) + Total(size, b)
  {
    if a == [] {
      assert a + b == b;
    } else {
      TotalOfConcat(size, a[1..], b);
      assert (a + b)[1..] == a[1..] + b;
    }
  }

  lemma TotalWithout<T>(size: T -> nat, t: seq<T>, i: nat)
    requires i < |t|
    ensures Total(size, t) == size(t[i]) + Total(size, Without(t, i))
  {
    TotalOfConcat(size, t[..i], t[i + 1..]);
    TotalOfConcat(size, t[..i], t[i..]);
    assert t == t[..i] + t[i..] && t[i..][1..] == t[i + 1..];
  }

  /** A later start in a sorted list is never cheaper. */
  lemma {:induction false} LaterIsNotCheaper<T>(size: T -> nat, items: seq<T>, m: nat)
    requires SortedBy(Cheaper(size), items) && m < |items|
    ensures Total(size, items[..m]) <= Total(size, items[1..][..m])
  {
    if m > 0 {
      LaterIsNotCheaper(size, items[1..], m - 1);
      assert items[..m][1..] == items[1..][..m - 1];
      assert items[1..][..m][1..] == items[1..][1..][..m - 1];
      assert Cheaper(size)(items[0], items[1]);
    }
  }

  lemma SubsetSize<T>(t: seq<T>, items: seq<T>)
    requires multiset(t) <= multiset(items)
    ensures |t| <= |items|
  {
    assert |multiset(t)| == |t| && |multiset(items)| == |items|;
    assert multiset(items) == multiset(t) + (multiset(items) - multiset(t));
  }

  lemma AbsentHead<T>(items: seq<T>, t: seq<T>)
    requires items != [] && items[0] !in t && multiset(t) <= multiset(items)
    ensures multiset(t) <= multiset(items[1..])
  {
    assert items == [items[0]] + items[1..];
    assert items[0] !in multiset(t);
  }

  lemma PresentHead<T>(items: seq<T>, t: seq<T>, i: nat)
    requires items != [] && i < |t| && t[i] == items[0] && multiset(t) <= multiset(items)
    ensures multiset(Without(t, i)) <= multiset(items[1..])
  {
    assert items == [items[0]] + items[1..];
  }

  lemma TotalFromHead<T>(size: T -> nat, items: seq<T>, t: seq<T>, i: nat)
    requires 0 < |t| <= |items| && i < |t| && t[i] == items[0]
    requires Total(size, items[1..][..|t| - 1]) <= Total(size, Without(t, i))
    ensures Total(size, items[..|t|]) <= Total(size, t)
  {
    TotalWithout(size, t, i);
    var first := items[..|t|];
    assert first[0] == items[0] && first[1..] == items[1..][..|t| - 1];
    assert Total(size, first) == size(items[0]) + Total(size, items[1..][..|t| - 1]);
  }

  /** In a sorted list, no other choice of m items is cheaper than the first m: the exchange argument. */
  lemma {:induction false} PrefixIsCheapest<T>(size: T -> nat, items: seq<T>, t: seq<T>)
    requires SortedBy(Cheaper(size), items) && multiset(t) <= multiset(items) && |t| <= |items|
    ensures Total(size, items[..|t|]) <= Total(size, t)
    decreases |items|
  {
    if t != [] {
      if items[0] in t {
        var i :| 0 <= i < |t| && t[i] == items[0];
        PresentHead(items, t, i);
        PrefixIsCheapest(size, items[1..], Without(t, i));
        TotalFromHead(size, items, t, i);
      } else {
        AbsentHead(items, t);
        SubsetSize(t, items[1..]);
        PrefixIsCheapest(size, items[1..], t);
        LaterIsNotCheaper(size, items, |t|);
      }
    }
  }

  lemma TotalOfPrefix<T>(size: T -> nat, items: seq<T>, m: nat, n: nat)
    requires m <= n <= |items|
    ensures Total(size, items[..m]) <= Total(size, items[..n])
  {
    TotalOfConcat(size, items[..m], items[m..n]);
    assert items[..n] == items[..m] + items[m..n];
  }

  /** Main result: no choice of items that fits is larger than the greedy one. */
  lemma FitIsLargest<T>(size: T -> nat, items: seq<T>, room: int, chosen: seq<T>)
    requires SortedBy(Cheaper(size), items) && multiset(chosen) <= multiset(items) && Total(size, chosen) <= room
    ensures |chosen| <= FitCount(size, items, room)
  {
    var n := FitCount(size, items, room);
    SubsetSize(chosen, items);
    PrefixIsCheapest(size, items, chosen);
    if |chosen| > n {
      FitCountNext(size, items, room, n);
      TotalOfPrefix(size, items, n + 1, |chosen|);
    }
  }
}
