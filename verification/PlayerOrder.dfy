/**
 * Players synced one after the other on a link with a limit, as sets: when the order they are synced in
 * does not matter.
 */
module PlayerOrder {
  import opened Collation

  /** One player's sync: an accepted player is added if there is room, any other is removed. */
  function StepRows(rows: set<string>, accepted: set<string>, limit: nat, d: string): set<string> {
    if d !in accepted then rows - {d}
    else if d in rows || |rows| >= limit then rows
    else rows + {d}
  }

  function RowsAfter(rows: set<string>, accepted: set<string>, limit: nat, order: seq<string>): set<string> {
    if order == [] then rows
    else StepRows(RowsAfter(rows, accepted, limit, order[..|order| - 1]), accepted, limit, order[|order| - 1])
  }

  predicate OnceEach(order: seq<string>, members: set<string>) {
    AsSet(order) == members && forall i, j :: 0 <= i < j < |order| ==> order[i] != order[j]
  }

  /** The accepted members a limited query keeps. */
  function Least(le: Order, accepted: set<string>, limit: nat): set<string>
    requires TotalOrder(le)
  {
    AsSet(Limited(le, accepted, limit))
  }

  /** The rows no sync of a member removes. */
  function Staying(rows: set<string>, accepted: set<string>, members: set<string>): set<string> {
    rows - (members - accepted)
  }

  /** Every order ends alike: nobody is left to add, or there is room for all, or there never is any. */
  predicate Confluent(rows: set<string>, accepted: set<string>, members: set<string>, limit: nat) {
    || accepted <= rows
    || |rows + accepted| <= limit
    || |Staying(rows, accepted, members)| >= limit
  }

  /** Where they end then. */
  function End(rows: set<string>, accepted: set<string>, members: set<string>, limit: nat): set<string> {
    var stay := Staying(rows, accepted, members);
    if |stay| >= limit then stay else stay + accepted
  }

  /**
   * When no order can end anywhere but at the limited query's members. If the accepted fit, either none
   * is left to add or there is room for all; if not, the ones already there are exactly the least.
   */
  predicate OrderIndependent(le: Order, rows: set<string>, accepted: set<string>, members: set<string>, limit: nat)
    requires TotalOrder(le)
  {
    && rows <= members
    && if |accepted| <= limit then accepted <= rows || |rows + accepted| <= limit
       else rows * accepted == Least(le, accepted, limit)
  }

  // ---------- What an order does ----------

  lemma {:induction false} SubsetIsSmaller(s: set<string>, t: set<string>)
    requires s <= t
    ensures |s| <= |t| && (s != t ==> |s| < |t|)
  {
    if s != {} {
      var x :| x in s;
      SubsetIsSmaller(s - {x}, t - {x});
    } else if t != {} {
      var x :| x in t;
      assert |t| > 0;
    }
  }

  lemma {:induction false} RowsConcat(
      rows: set<string>, accepted: set<string>, limit: nat, a: seq<string>, b: seq<string>)
    ensures RowsAfter(rows, accepted, limit, a + b)
         == RowsAfter(RowsAfter(rows, accepted, limit, a), accepted, limit, b)
  {
    if b == [] {
      assert a + b == a;
    } else {
      RowsConcat(rows, accepted, limit, a, b[..|b| - 1]);
      assert (a + b)[..|a + b| - 1] == a + b[..|b| - 1];
    }
  }

  /** An accepted row stays, a synced player who is not accepted goes, and nobody else moves. */
  lemma {:induction false} RowsMove(rows: set<string>, accepted: set<string>, limit: nat, order: seq<string>, d: string)
    ensures var after := RowsAfter(rows, accepted, limit, order);
            && (d in rows && d in accepted ==> d in after)
            && (d in order && d !in accepted ==> d !in after)
            && (d !in order ==> (d in after <==> d in rows))
            && (d in after ==> d in rows || d in accepted)
  {
    if order != [] {
      hide StepRows;
      var before, last := order[..|order| - 1], order[|order| - 1];
      RowsMove(rows, accepted, limit, before, d);
      StepMoves(RowsAfter(rows, accepted, limit, before), accepted, limit, last, d);
      assert d in order <==> d in before || d == last;
    }
  }

  lemma StepMoves(rows: set<string>, accepted: set<string>, limit: nat, e: string, d: string)
    ensures var after := StepRows(rows, accepted, limit, e);
            && (d in accepted && d in rows ==> d in after)
            && (d == e && d !in accepted ==> d !in after)
            && (d != e ==> (d in after <==> d in rows))
            && (d in after && d !in rows ==> d in accepted)
  {
  }

  lemma RowsBounds(
      rows: set<string>, accepted: set<string>, members: set<string>, limit: nat, order: seq<string>)
    requires AsSet(order) <= members
    ensures Staying(rows, accepted, members) <= RowsAfter(rows, accepted, limit, order) <= rows + accepted
  {
    forall d
      ensures d in Staying(rows, accepted, members) ==> d in RowsAfter(rows, accepted, limit, order)
      ensures d in RowsAfter(rows, accepted, limit, order) ==> d in rows + accepted
    {
      RowsMove(rows, accepted, limit, order, d);
      assert d in order ==> d in AsSet(order);
    }
  }

  /** Rows are added up to the limit only. */
  lemma {:induction false} RowsFit(rows: set<string>, accepted: set<string>, limit: nat, order: seq<string>)
    ensures |RowsAfter(rows, accepted, limit, order)| <= if |rows| <= limit then limit else |rows|
  {
    if order != [] {
      var before, d := RowsAfter(rows, accepted, limit, order[..|order| - 1]), order[|order| - 1];
      RowsFit(rows, accepted, limit, order[..|order| - 1]);
      SubsetIsSmaller(before - {d}, before);
    }
  }

  /** Nobody is added when nobody is left to add, or the rows that stay fill the limit. */
  lemma {:induction false} NobodyAdded(
      rows: set<string>, accepted: set<string>, members: set<string>, limit: nat, order: seq<string>)
    requires AsSet(order) <= members
    requires accepted <= rows || |Staying(rows, accepted, members)| >= limit
    ensures RowsAfter(rows, accepted, limit, order) <= rows
  {
    if order != [] {
      hide Staying;
      var before := order[..|order| - 1];
      assert AsSet(before) <= AsSet(order);
      NobodyAdded(rows, accepted, members, limit, before);
      RowsBounds(rows, accepted, members, limit, before);
      SubsetIsSmaller(Staying(rows, accepted, members), RowsAfter(rows, accepted, limit, before));
      AcceptedStay(rows, accepted, members);
    }
  }

  lemma AcceptedStay(rows: set<string>, accepted: set<string>, members: set<string>)
    ensures accepted <= rows ==> accepted <= Staying(rows, accepted, members)
    ensures Staying(rows, accepted, members) <= rows
  {
  }

  /** Everybody accepted is added when the old rows and the accepted together fit. */
  lemma {:induction false} EverybodyAdded(
      rows: set<string>, accepted: set<string>, limit: nat, order: seq<string>, d: string)
    requires |rows + accepted| <= limit && d in order && d in accepted
    ensures d in RowsAfter(rows, accepted, limit, order)
  {
    var before, last := order[..|order| - 1], order[|order| - 1];
    var rowsBefore := RowsAfter(rows, accepted, limit, before);
    assert order == before + [last];
    if d in before {
      EverybodyAdded(rows, accepted, limit, before, d);
    } else if d !in rowsBefore {
      RowsBounds(rows, accepted, AsSet(before), limit, before);
      SubsetIsSmaller(rowsBefore, rows + accepted);
    }
  }

  // ---------- The conditions are enough ----------

  lemma EveryOrderEnds(rows: set<string>, accepted: set<string>, members: set<string>, limit: nat, order: seq<string>)
    requires accepted <= members && AsSet(order) == members && Confluent(rows, accepted, members, limit)
    ensures RowsAfter(rows, accepted, limit, order) == End(rows, accepted, members, limit)
  {
    hide RowsAfter;
    var stay, after := Staying(rows, accepted, members), RowsAfter(rows, accepted, limit, order);
    RowsBounds(rows, accepted, members, limit, order);
    if accepted <= rows || |stay| >= limit {
      NobodyAdded(rows, accepted, members, limit, order);
    }
    forall d
      ensures d in after <==> d in End(rows, accepted, members, limit)
    {
      RowsMove(rows, accepted, limit, order, d);
      assert d in order <==> d in AsSet(order);
      if |rows + accepted| <= limit && d in accepted {
        EverybodyAdded(rows, accepted, limit, order, d);
      }
    }
  }

  /** The limited query's members are where every order ends exactly when `OrderIndependent` says so. */
  lemma OrderIndependentIff(le: Order, rows: set<string>, accepted: set<string>, members: set<string>, limit: nat)
    requires TotalOrder(le) && accepted <= members
    ensures OrderIndependent(le, rows, accepted, members, limit)
       <==> Confluent(rows, accepted, members, limit)
            && End(rows, accepted, members, limit) == Least(le, accepted, limit)
  {
    hide TotalOrder, Limited, Staying, Least;
    LimitedIsSubset(le, accepted, limit);
    LeastIs(le, accepted, limit);
    var stay, least := Staying(rows, accepted, members), Least(le, accepted, limit);
    if rows <= members {
      StayingMembers(rows, accepted, members);
      SubsetIsSmaller(stay, rows + accepted);
      SubsetIsSmaller(stay, accepted);
    } else {
      var d := StayingStranger(rows, accepted, members);
      assert d in End(rows, accepted, members, limit) && d !in least;
    }
  }

  lemma LeastIs(le: Order, accepted: set<string>, limit: nat)
    requires TotalOrder(le)
    ensures Least(le, accepted, limit) == AsSet(Limited(le, accepted, limit))
  {
  }

  lemma StayingMembers(rows: set<string>, accepted: set<string>, members: set<string>)
    requires rows <= members
    ensures Staying(rows, accepted, members) == rows * accepted
  {
  }

  lemma StayingStranger(rows: set<string>, accepted: set<string>, members: set<string>) returns (d: string)
    requires accepted <= members && !(rows <= members)
    ensures d in Staying(rows, accepted, members) && d !in accepted
  {
    d :| d in rows && d !in members;
  }

  lemma EveryOrderConverges(
      le: Order, rows: set<string>, accepted: set<string>, members: set<string>, limit: nat, order: seq<string>)
    requires TotalOrder(le) && accepted <= members && AsSet(order) == members
    requires OrderIndependent(le, rows, accepted, members, limit)
    ensures RowsAfter(rows, accepted, limit, order) == Least(le, accepted, limit)
  {
    hide RowsAfter, TotalOrder, Limited, OrderIndependent, Confluent, End, Least;
    OrderIndependentIff(le, rows, accepted, members, limit);
    EveryOrderEnds(rows, accepted, members, limit, order);
  }

  // ---------- The conditions are needed ----------

  lemma SortedOnceEach(le: Order, s: set<string>)
    requires TotalOrder(le)
    ensures OnceEach(Sorted(le, s), s)
  {
    forall i, j | 0 <= i < j < |s|
      ensures Sorted(le, s)[i] != Sorted(le, s)[j]
    {
      SortedIsOrdered(le, s, i, j);
    }
  }

  lemma OnceEachConcat(a: seq<string>, s: set<string>, b: seq<string>, t: set<string>)
    requires OnceEach(a, s) && OnceEach(b, t) && s !! t
    ensures OnceEach(a + b, s + t)
  {
    assert forall x :: x in a ==> x in AsSet(a);
    assert forall x :: x in b ==> x in AsSet(b);
    assert forall x :: x in a + b <==> x in a || x in b;
    assert AsSet(a + b) == s + t;
    forall i, j | 0 <= i < j < |a + b|
      ensures (a + b)[i] != (a + b)[j]
    {
      if i < |a| <= j {
        assert a[i] in s && b[j - |a|] in t;
      }
    }
  }

  /** Some members first, each once, then the others. */
  function FirstThese(le: Order, first: set<string>, members: set<string>): (order: seq<string>)
    requires TotalOrder(le)
  {
    Sorted(le, first) + Sorted(le, members - first)
  }

  /** Not everybody fits beside the old rows: of those added before the removals someone is turned away. */
  lemma AddingFirstFails(
      le: Order, rows: set<string>, accepted: set<string>, members: set<string>, limit: nat, order: seq<string>)
    requires TotalOrder(le) && accepted <= members
    requires !(accepted <= rows) && |rows + accepted| > limit
    requires order == FirstThese(le, accepted - rows, members)
    ensures OnceEach(order, members) && !(accepted <= RowsAfter(rows, accepted, limit, order))
  {
    hide RowsAfter, TotalOrder, Sorted;
    var added, others := accepted - rows, members - (accepted - rows);
    var a, b := Sorted(le, added), Sorted(le, others);
    SortedOnceEach(le, added);
    SortedOnceEach(le, others);
    OnceEachConcat(a, added, b, others);
    assert added + others == members;
    var mid := RowsAfter(rows, accepted, limit, a);
    RowsConcat(rows, accepted, limit, a, b);
    RowsFit(rows, accepted, limit, a);
    if accepted <= RowsAfter(rows, accepted, limit, order) {
      forall d | d in rows + accepted
        ensures d in mid
      {
        RowsMove(rows, accepted, limit, a, d);
        RowsMove(mid, accepted, limit, b, d);
      }
      SubsetIsSmaller(rows + accepted, mid);
      SubsetIsSmaller(rows, rows + accepted);
    }
  }

  /** The rows that stay leave room: once the removals are done, any accepted player can be the next added. */
  lemma RemovingFirstAdds(
      le: Order, rows: set<string>, accepted: set<string>, members: set<string>, limit: nat, x: string)
    requires TotalOrder(le) && accepted <= members
    requires |Staying(rows, accepted, members)| < limit && x in accepted
    ensures var order := Sorted(le, members - accepted) + ([x] + Sorted(le, accepted - {x}));
            OnceEach(order, members) && x in RowsAfter(rows, accepted, limit, order)
  {
    hide RowsAfter, TotalOrder, Sorted, OnceEach, StepRows, Staying;
    var gone, others := members - accepted, accepted - {x};
    var a, b := Sorted(le, gone), Sorted(le, others);
    SortedOnceEach(le, gone);
    SortedOnceEach(le, others);
    OnceAlone(x);
    OnceEachConcat([x], {x}, b, others);
    OnceEachConcat(a, gone, [x] + b, {x} + others);
    assert gone + ({x} + others) == members;
    RemovalsFirst(le, rows, accepted, members, limit);
    var mid := RowsAfter(rows, accepted, limit, a);
    RowsConcat(rows, accepted, limit, a, [x] + b);
    RowsConcat(mid, accepted, limit, [x], b);
    AddedStays(mid, accepted, limit, x, b);
  }

  lemma OnceAlone(x: string)
    ensures OnceEach([x], {x})
  {
  }

  lemma RemovalsFirst(le: Order, rows: set<string>, accepted: set<string>, members: set<string>, limit: nat)
    requires TotalOrder(le)
    ensures RowsAfter(rows, accepted, limit, Sorted(le, members - accepted)) == Staying(rows, accepted, members)
  {
    hide RowsAfter, TotalOrder, Sorted;
    var a := Sorted(le, members - accepted);
    var mid := RowsAfter(rows, accepted, limit, a);
    forall d
      ensures d in mid <==> d in Staying(rows, accepted, members)
    {
      RowsMove(rows, accepted, limit, a, d);
    }
  }

  /** With room, an accepted player is added and stays. */
  lemma AddedStays(rows: set<string>, accepted: set<string>, limit: nat, x: string, after: seq<string>)
    requires |rows| < limit && x in accepted
    ensures x in RowsAfter(RowsAfter(rows, accepted, limit, [x]), accepted, limit, after)
  {
    OneStep(rows, accepted, limit, x);
    hide RowsAfter;
    RowsMove(RowsAfter(rows, accepted, limit, [x]), accepted, limit, after, x);
  }

  lemma OneStep(rows: set<string>, accepted: set<string>, limit: nat, d: string)
    ensures RowsAfter(rows, accepted, limit, [d]) == StepRows(rows, accepted, limit, d)
  {
    assert [d][..0] == [];
    assert RowsAfter(rows, accepted, limit, []) == rows;
  }

  /** Without confluence some two orders end differently. */
  lemma SomeOrdersDiffer(le: Order, rows: set<string>, accepted: set<string>, members: set<string>, limit: nat)
    returns (one: seq<string>, other: seq<string>)
    requires TotalOrder(le) && accepted <= members && !Confluent(rows, accepted, members, limit)
    ensures OnceEach(one, members) && OnceEach(other, members)
    ensures RowsAfter(rows, accepted, limit, one) != RowsAfter(rows, accepted, limit, other)
  {
    hide RowsAfter, TotalOrder, Sorted, OnceEach, Staying, FirstThese;
    one := FirstThese(le, accepted - rows, members);
    AddingFirstFails(le, rows, accepted, members, limit, one);
    var x :| x in accepted && x !in RowsAfter(rows, accepted, limit, one);
    other := Sorted(le, members - accepted) + ([x] + Sorted(le, accepted - {x}));
    RemovingFirstAdds(le, rows, accepted, members, limit, x);
  }

  /** Exactly: every order of the members ends at one given set if and only if they are confluent and end there. */
  lemma OrdersEndAtIff(
      le: Order, rows: set<string>, accepted: set<string>, members: set<string>, limit: nat, end: set<string>)
    requires TotalOrder(le) && accepted <= members
    ensures (forall order :: OnceEach(order, members) ==> RowsAfter(rows, accepted, limit, order) == end)
       <==> Confluent(rows, accepted, members, limit) && end == End(rows, accepted, members, limit)
  {
    hide RowsAfter, TotalOrder, Confluent, End, Sorted;
    if Confluent(rows, accepted, members, limit) {
      forall order | OnceEach(order, members) {
        EveryOrderEnds(rows, accepted, members, limit, order);
      }
      SortedOnceEach(le, members);
    } else {
      var one, other := SomeOrdersDiffer(le, rows, accepted, members, limit);
    }
  }

  /** Exactly: every order ends with the limited query's members if and only if it cannot matter. */
  lemma OrderMattersUnless(le: Order, rows: set<string>, accepted: set<string>, members: set<string>, limit: nat)
    requires TotalOrder(le) && accepted <= members
    ensures OrderIndependent(le, rows, accepted, members, limit)
       <==> forall order :: OnceEach(order, members)
              ==> RowsAfter(rows, accepted, limit, order) == Least(le, accepted, limit)
  {
    hide RowsAfter, TotalOrder, OrderIndependent, Least, Confluent, End;
    OrderIndependentIff(le, rows, accepted, members, limit);
    OrdersEndAtIff(le, rows, accepted, members, limit, Least(le, accepted, limit));
  }

  // ---------- When the bulk query finds more ----------

  /** If the least of a larger set are in the smaller one, they are its least. */
  lemma LeastOfLarger(le: Order, small: set<string>, large: set<string>, limit: nat)
    requires TotalOrder(le) && small <= large && Least(le, large, limit) <= small
    ensures Least(le, small, limit) == Least(le, large, limit)
  {
    hide TotalOrder, Limited;
    var a, b := Least(le, small, limit), Least(le, large, limit);
    LimitedIsSubset(le, small, limit);
    LimitedIsSubset(le, large, limit);
    SubsetIsSmaller(small, large);
    SubsetIsSmaller(b, small);
    if a != b {
      assert |a| == |b|;
      if a <= b {
        SubsetIsSmaller(a, b);
      } else if b <= a {
        SubsetIsSmaller(b, a);
      } else {
        var x :| x in a && x !in b;
        var y :| y in b && y !in a;
        LimitedIsLeast(le, small, limit, x, y);
        LimitedIsLeast(le, large, limit, y, x);
        SameLeast(le, x, y);
      }
    }
  }

  /** The orders end at the limited members of a larger set exactly if those are the accepted's own. */
  lemma EndOfLargerIff(
      le: Order, rows: set<string>, accepted: set<string>, found: set<string>, members: set<string>, limit: nat)
    requires TotalOrder(le) && accepted <= found <= members
    ensures Confluent(rows, accepted, members, limit)
              && End(rows, accepted, members, limit) == Least(le, found, limit)
       <==> OrderIndependent(le, rows, accepted, members, limit)
              && Least(le, found, limit) == Least(le, accepted, limit)
  {
    hide TotalOrder, Limited, Confluent, OrderIndependent;
    OrderIndependentIff(le, rows, accepted, members, limit);
    LimitedIsSubset(le, found, limit);
    if End(rows, accepted, members, limit) == Least(le, found, limit) {
      assert Least(le, found, limit) <= accepted;
      LeastOfLarger(le, accepted, found, limit);
    }
  }
}
