/** ORDER BY over a set of texts, for any collation that is a total order. */
module Collation {

  type Order = (string, string) -> bool

  ghost predicate TotalOrder(le: Order) {
    && (forall a, b :: le(a, b) || le(b, a))
    && (forall a, b :: le(a, b) && le(b, a) ==> a == b)
    && (forall a, b, c :: le(a, b) && le(b, c) ==> le(a, c))
  }

  /** The lesser of x and y is below whatever y is below. */
  lemma LesserIsBelow(le: Order, x: string, y: string, z: string)
    requires TotalOrder(le)
    ensures le(x, x) && (le(x, y) || le(y, x))
    ensures le(x, y) && le(y, z) ==> le(x, z)
  {
  }

  lemma SameLeast(le: Order, x: string, y: string)
    requires TotalOrder(le)
    ensures le(x, y) && le(y, x) ==> x == y
  {
  }

  ghost predicate IsLeast(le: Order, s: set<string>, x: string) {
    x in s && forall y :: y in s ==> le(x, y)
  }

  lemma LeastOfMore(le: Order, s: set<string>, x: string, least: string)
    requires TotalOrder(le) && x in s && IsLeast(le, s - {x}, least)
    ensures IsLeast(le, s, if le(x, least) then x else least)
  {
    hide TotalOrder;
    forall y | y in s
      ensures le(if le(x, least) then x else least, y)
    {
      assert y == x || y in s - {x};
      LesserIsBelow(le, x, least, y);
    }
  }

  lemma {:induction false} LeastExists(le: Order, s: set<string>)
    requires TotalOrder(le) && s != {}
    ensures exists x :: IsLeast(le, s, x)
    decreases |s|
  {
    hide TotalOrder;
    var x :| x in s;
    if s - {x} == {} {
      LesserIsBelow(le, x, x, x);
      assert forall y :: y in s ==> y == x || y in s - {x};
      assert IsLeast(le, s, x);
    } else {
      LeastExists(le, s - {x});
      var least :| IsLeast(le, s - {x}, least);
      LeastOfMore(le, s, x, least);
    }
  }

  /** The members in order. */
  function Sorted(le: Order, s: set<string>): (r: seq<string>)
    requires TotalOrder(le)
    ensures |r| == |s| && forall x :: x in r <==> x in s
    decreases |s|
  {
    if s == {} then []
    else
      LeastExists(le, s);
      assert exists x :: x in s && forall y :: y in s ==> le(x, y) by {
        var least :| IsLeast(le, s, least);
      }
      var x :| x in s && forall y :: y in s ==> le(x, y);
      [x] + Sorted(le, s - {x})
  }

  /** ORDER BY ... LIMIT n. */
  function Limited(le: Order, s: set<string>, n: nat): (r: seq<string>)
    requires TotalOrder(le)
    ensures |r| == if |s| <= n then |s| else n
  {
    var all := Sorted(le, s);
    if |all| <= n then all else all[..n]
  }

  function AsSet(xs: seq<string>): set<string> {
    set x | x in xs
  }

  lemma SortedSplits(le: Order, s: set<string>)
    requires TotalOrder(le) && s != {}
    ensures var r := Sorted(le, s);
            && r[0] in s
            && (forall y :: y in s ==> le(r[0], y))
            && r == [r[0]] + Sorted(le, s - {r[0]})
  {
    LeastExists(le, s);
  }

  lemma {:induction false} SortedIsOrdered(le: Order, s: set<string>, i: nat, j: nat)
    requires TotalOrder(le) && i < j < |s|
    ensures var r := Sorted(le, s); le(r[i], r[j]) && r[i] != r[j]
    decreases |s|
  {
    hide Sorted;
    SortedSplits(le, s);
    var r := Sorted(le, s);
    var rest := Sorted(le, s - {r[0]});
    if i == 0 {
      assert rest[j - 1] in rest;
    } else {
      SortedIsOrdered(le, s - {r[0]}, i - 1, j - 1);
    }
  }

  /** Equal ordered lists are equal sets, so comparing the lists compares the sets. */
  lemma SortedEqualsIff(le: Order, s: set<string>, t: set<string>)
    requires TotalOrder(le)
    ensures Sorted(le, s) == Sorted(le, t) <==> s == t
  {
    if Sorted(le, s) == Sorted(le, t) {
      assert forall x :: x in s <==> x in Sorted(le, s);
      assert forall x :: x in t <==> x in Sorted(le, t);
    }
  }

  lemma {:induction false} DistinctCount(xs: seq<string>)
    requires forall i, j :: 0 <= i < j < |xs| ==> xs[i] != xs[j]
    ensures |AsSet(xs)| == |xs|
  {
    if xs == [] {
      assert AsSet(xs) == {};
    } else {
      var last := xs[|xs| - 1];
      DistinctCount(xs[..|xs| - 1]);
      assert xs == xs[..|xs| - 1] + [last];
      assert AsSet(xs) == AsSet(xs[..|xs| - 1]) + {last};
    }
  }

  /** A limited query returns that many distinct members, all of them when they fit. */
  lemma LimitedIsSubset(le: Order, s: set<string>, n: nat)
    requires TotalOrder(le)
    ensures AsSet(Limited(le, s, n)) <= s
    ensures |AsSet(Limited(le, s, n))| == if |s| <= n then |s| else n
    ensures |s| <= n ==> AsSet(Limited(le, s, n)) == s
  {
    var r := Limited(le, s, n);
    forall i, j | 0 <= i < j < |r|
      ensures r[i] != r[j]
    {
      SortedIsOrdered(le, s, i, j);
    }
    DistinctCount(r);
  }

  /** What a limited query keeps comes before everything it drops. */
  lemma LimitedIsLeast(le: Order, s: set<string>, n: nat, x: string, y: string)
    requires TotalOrder(le) && x in Limited(le, s, n) && y in s && y !in Limited(le, s, n)
    ensures le(x, y)
  {
    var all := Sorted(le, s);
    var i :| 0 <= i < |Limited(le, s, n)| && all[i] == x;
    var j :| 0 <= j < |all| && all[j] == y;
    assert forall k :: 0 <= k < |Limited(le, s, n)| ==> all[k] in Limited(le, s, n);
    assert j >= n;
    SortedIsOrdered(le, s, i, j);
  }

  /** Sorting the kept ids again gives the list that was sent. */
  lemma LimitedIsSorted(le: Order, s: set<string>, n: nat)
    requires TotalOrder(le)
    ensures Sorted(le, AsSet(Limited(le, s, n))) == Limited(le, s, n)
  {
    var r := Limited(le, s, n);
    forall i, j | 0 <= i < j < |r|
      ensures le(r[i], r[j]) && r[i] != r[j]
    {
      SortedIsOrdered(le, s, i, j);
    }
    OrderedListIsSorted(le, r);
  }

  lemma {:induction false} OrderedListIsSorted(le: Order, r: seq<string>)
    requires TotalOrder(le) && forall i, j :: 0 <= i < j < |r| ==> le(r[i], r[j]) && r[i] != r[j]
    ensures Sorted(le, AsSet(r)) == r
  {
    if r == [] {
      assert AsSet(r) == {};
    } else {
      hide Sorted, TotalOrder, AsSet;
      var s, first := AsSet(r), r[0];
      HeadIsLeast(le, r);
      SortedSplits(le, s);
      SameLeast(le, first, Sorted(le, s)[0]);
      OrderedListIsSorted(le, r[1..]);
    }
  }

  lemma HeadIsLeast(le: Order, r: seq<string>)
    requires TotalOrder(le) && r != [] && forall i, j :: 0 <= i < j < |r| ==> le(r[i], r[j]) && r[i] != r[j]
    ensures r[0] in AsSet(r) && AsSet(r) - {r[0]} == AsSet(r[1..]) && r == [r[0]] + r[1..]
    ensures forall y :: y in AsSet(r) ==> le(r[0], y)
  {
    assert r == [r[0]] + r[1..] && r[0] !in r[1..];
    assert le(r[0], r[0]);
  }
}
