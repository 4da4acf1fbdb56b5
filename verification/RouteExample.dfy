/** Quotes for which the search takes different routes from one currency to another and back, at rates that are not
    inverse to each other (ql/currencies/exchangeratemanager.cpp, ql/money.cpp). */
module RouteExamples {
  import opened ExchangeRates
  import opened MoneyObjects
  import opened Moneys
  import opened Orderings
  import opened RateManagers
  import opened RealArithmetic
  import opened Results
  import opened Roundings

  /** Currencies 1, 2 and 3 are quoted against each other, and currency 4 against 2. Going around the first three
      doubles an amount. */
  function Loop(): Rates {
    map[1002 := [Entry(Direct(1, 2, 2.0), 0, 0)], 1003 := [Entry(Direct(3, 1, 1.0), 0, 0)],
        2003 := [Entry(Direct(2, 3, 1.0), 0, 0)], 2004 := [Entry(Direct(2, 4, 1.0), 0, 0)]]
  }

  function Unrounded(): Settings {
    Settings(AutomatedConversion, None, Loop(), map[], 0, _ => NoRounding)
  }

  lemma LoopIsFiled()
    ensures Filed(Loop()) && Triangulation(map[])
  {
    assert Ranked(map[], _ => 0);
  }

  lemma LoopKeys()
    ensures Loop().Keys == {1002, 1003, 2003, 2004}
    ensures Sorted(Loop().Keys) == [1002, 1003, 2003, 2004]
  {
    hide Sorted;
    KeySet();
    var four: set<int> := {2004} + {};
    var three := {2003} + four;
    var two := {1003} + three;
    SortedFirst(2004, {});
    SortedFirst(2003, four);
    SortedFirst(1003, three);
    SortedFirst(1002, two);
    NothingSorted();
  }

  lemma KeySet()
    ensures Loop().Keys == {1002, 1003, 2003, 2004}
    ensures Loop().Keys == {1002} + ({1003} + ({2003} + ({2004} + {})))
  {
  }

  lemma NothingSorted()
    ensures Sorted({}) == []
  {
  }

  lemma SortedFirst(m: int, rest: set<int>)
    requires forall x :: x in rest ==> m < x
    ensures Sorted({m} + rest) == [m] + Sorted(rest)
  {
    var s := {m} + rest;
    assert m in s;
    SortedParts(s);
    hide Sorted;
    assert Least(s) == m;
    assert s - {m} == rest;
  }

  lemma LoopFetch()
    ensures Fetch(Loop(), 3, 4, 0) == Fetch(Loop(), 4, 3, 0) == Fetch(Loop(), 1, 4, 0) == None
    ensures Fetch(Loop(), 3, 1, 0) == Some(Direct(3, 1, 1.0)) && Fetch(Loop(), 1, 2, 0) == Some(Direct(1, 2, 2.0))
    ensures Fetch(Loop(), 2, 4, 0) == Fetch(Loop(), 4, 2, 0) == Some(Direct(2, 4, 1.0))
    ensures Fetch(Loop(), 2, 3, 0) == Some(Direct(2, 3, 1.0))
  {
  }

  lemma LoopOther()
    ensures Loop().Keys == {1002, 1003, 2003, 2004}
    ensures Other(Loop(), 1002, 3) == None && Other(Loop(), 1003, 3) == Some(1) && Other(Loop(), 1002, 1) == Some(2)
    ensures Other(Loop(), 1002, 4) == Other(Loop(), 1003, 4) == Other(Loop(), 2003, 4) == None
    ensures Other(Loop(), 2004, 4) == Some(2)
  {
  }

  lemma Chains()
    ensures Chain(Direct(1, 2, 2.0), Direct(2, 4, 1.0)) == Success(OneToFour())
    ensures Chain(Direct(3, 1, 1.0), OneToFour()) == Success(Derived(3, 4, 2.0, Direct(3, 1, 1.0), OneToFour()))
    ensures Chain(Direct(2, 4, 1.0), Direct(2, 3, 1.0))
         == Success(Derived(4, 3, 1.0, Direct(2, 4, 1.0), Direct(2, 3, 1.0)))
  {
  }

  function OneToFour(): ExchangeRate {
    Derived(1, 4, 2.0, Direct(1, 2, 2.0), Direct(2, 4, 1.0))
  }

  lemma FromOne()
    ensures Filed(Loop()) && SmartLookup(Loop(), 1, 4, 0, {3}) == Success(OneToFour())
  {
    LoopIsFiled();
    LoopKeys();
    LoopFetch();
    LoopOther();
    Chains();
    hide Loop, Fetch, Filed, Other, Sorted, Chain;
    var keys: seq<Key> := [1002, 1003, 2003, 2004];
    var visited: set<Currency> := {3} + {1};
    assert SmartLookup(Loop(), 2, 4, 0, visited) == Success(Direct(2, 4, 1.0));
    assert TryKey(Loop(), 1002, 1, 4, 0, visited) == Success(OneToFour());
    assert keys[0] == 1002;
    assert TryKeys(Loop(), keys, 1, 4, 0, visited) == Success(OneToFour());
  }

  /** From 3 to 4 the search goes around: it tries 1, the least currency quoted against 3, first. */
  lemma FromThree()
    ensures Filed(Loop())
    ensures SmartLookup(Loop(), 3, 4, 0, {}) == Success(Derived(3, 4, 2.0, Direct(3, 1, 1.0), OneToFour()))
  {
    FromOne();
    LoopKeys();
    LoopFetch();
    LoopOther();
    Chains();
    hide Loop, Fetch, Filed, Other, Sorted, Chain;
    var keys: seq<Key> := [1002, 1003, 2003, 2004];
    var visited: set<Currency> := {} + {3};
    assert visited == {3};
    assert TryKey(Loop(), 1002, 3, 4, 0, visited) == Failure(RateError.NoConversion);
    assert TryKey(Loop(), 1003, 3, 4, 0, visited).Success?;
    assert keys[1..][0] == 1003;
    assert TryKeys(Loop(), keys, 3, 4, 0, visited) == TryKeys(Loop(), keys[1..], 3, 4, 0, visited);
  }

  /** From 4 to 3 it goes directly through 2, the only currency quoted against 4. */
  lemma FromFour()
    ensures Filed(Loop())
    ensures SmartLookup(Loop(), 4, 3, 0, {})
         == Success(Derived(4, 3, 1.0, Direct(2, 4, 1.0), Direct(2, 3, 1.0)))
  {
    LoopIsFiled();
    LoopKeys();
    LoopFetch();
    LoopOther();
    Chains();
    hide Loop, Fetch, Filed, Other, Sorted, Chain;
    var keys: seq<Key> := [1002, 1003, 2003, 2004];
    var visited: set<Currency> := {} + {4};
    assert visited == {4};
    assert SmartLookup(Loop(), 2, 3, 0, visited) == Success(Direct(2, 3, 1.0));
    assert TryKey(Loop(), 2004, 4, 3, 0, visited).Success?;
    Skipped(keys, 4, 3, visited);
    Skipped(keys[1..], 4, 3, visited);
    Skipped(keys[2..], 4, 3, visited);
    assert keys[3..][0] == 2004;
  }

  lemma Skipped(keys: seq<Key>, source: Currency, target: Currency, visited: set<Currency>)
    requires Filed(Loop()) && source < 1000 && target < 1000 && forall k :: k in keys ==> k in Loop()
    requires keys != [] && Other(Loop(), keys[0], source).None?
    ensures TryKeys(Loop(), keys, source, target, 0, visited) == TryKeys(Loop(), keys[1..], source, target, 0, visited)
  {
    hide Loop, Fetch, Filed, Other;
  }

  /** Although nothing is rounded, equality of amounts of these two currencies depends on the order of the operands:
      converting there and back doubles an amount. */
  lemma RoutesBreakSymmetry()
    ensures var s := Unrounded();
      && s.Valid() && s.rounding(3).NoRounding? && s.rounding(4).NoRounding?
      && Quotable(s, 3, 4) && Quotable(s, 4, 3) && Times(Factor(s, 3, 4), Factor(s, 4, 3)) == 2.0
      && !EqualityIsSymmetric(s, 3, 4)
  {
    var s := Unrounded();
    LoopIsFiled();
    FromThree();
    FromFour();
    hide Loop, Filed, Fetch, SmartLookup, EqualityIsSymmetric, Triangulation;
    assert Rate(s, 3, 4) == SmartLookup(Loop(), 3, 4, 0, {});
    assert Rate(s, 4, 3) == SmartLookup(Loop(), 4, 3, 0, {});
    EqualityIsSymmetricWhenExact(s, 3, 4);
  }
}
