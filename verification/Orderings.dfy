/** Finite sets of integers in increasing order: the iteration order of ordered containers. */
module Orderings {

  function Least(s: set<int>): (m: int)
    requires s != {}
    ensures m in s && forall x :: x in s ==> m <= x
  {
    LeastExists(s);
    var m :| IsLeast(m, s);
    m
  }

  predicate IsLeast(m: int, s: set<int>) {
    m in s && forall x :: x in s ==> m <= x
  }

  lemma SomeMember(s: set<int>)
    ensures s != {} ==> exists x :: x in s
  {
    if forall x :: x !in s {
      assert s == {};
    }
  }

  lemma {:induction false} LeastExists(s: set<int>)
    requires s != {}
    ensures exists m :: IsLeast(m, s)
  {
    SomeMember(s);
    var x :| x in s;
    if s == {x} {
      assert IsLeast(x, s);
    } else {
      var rest := s - {x};
      LeastExists(rest);
      var m :| IsLeast(m, rest);
      var least := if m < x then m else x;
      assert forall y :: y in s ==> y == x || y in rest;
      assert IsLeast(least, s);
    }
  }

  /** The elements in increasing order, as the iterators of a std::map visit its keys. */
  function Sorted(s: set<int>): (r: seq<int>)
    ensures |r| == |s|
  {
    if s == {} then [] else [Least(s)] + Sorted(s - {Least(s)})
  }

  lemma {:induction false} SortedMembers(s: set<int>)
    ensures forall d :: d in Sorted(s) <==> d in s
  {
    if s != {} {
      SortedMembers(s - {Least(s)});
    }
  }

  lemma SortedParts(s: set<int>)
    requires s != {}
    ensures var m := Least(s);
      && Sorted(s) == [m] + Sorted(s - {m}) && |s - {m}| == |s| - 1
      && forall x :: x in s - {m} ==> m < x
  {
  }

  lemma {:induction false} SortedIncrease(s: set<int>, i: nat, j: nat)
    requires i < j < |s|
    ensures Sorted(s)[i] < Sorted(s)[j]
  {
    assert s != {};
    SortedParts(s);
    var rest := s - {Least(s)};
    assert Sorted(s)[j] == Sorted(rest)[j - 1];
    if i == 0 {
      SortedMembers(rest);
      assert Sorted(rest)[j - 1] in rest;
    } else {
      assert Sorted(s)[i] == Sorted(rest)[i - 1];
      SortedIncrease(rest, i - 1, j - 1);
    }
  }
}
