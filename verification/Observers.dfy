/** Observables, relinkable handles, moving term structures and lazy objects
    (ql/patterns/observable.*, ql/patterns/lazyobject.hpp, ql/handle.hpp, ql/termstructure.*,
    ql/utilities/observablevalue.hpp). */
module Observers {
  import opened Results

  type Id = nat

  datatype Kind =
    | Source
    | Link(target: Option<Id>, isObserver: bool)
    | FixedCurve(date: int)
    | MovingCurve(today: Id, settlementDays: nat)
    | Lazy(inputs: seq<Id>)

  /** What an object reads. */
  function Inputs(k: Kind): set<Id> {
    match k
    case Source => {}
    case Link(None, _) => {}
    case Link(Some(t), _) => {t}
    case FixedCurve(_) => {}
    case MovingCurve(today, _) => {today}
    case Lazy(inputs) => set d | d in inputs
  }

  /** What an object is registered with. Only a link can read without being registered. */
  function Observed(k: Kind): (r: set<Id>)
    ensures r <= Inputs(k)
  {
    if k.Link? && !k.isObserver then {} else Inputs(k)
  }

  type Graph = map<Id, Kind>
  type Rank = map<Id, nat>

  /** Objects read only objects of lower rank; a moving curve reads the evaluation date itself. */
  ghost predicate Acyclic(g: Graph, rank: Rank) {
    && g.Keys <= rank.Keys
    && forall o, d :: o in g && d in Inputs(g[o]) ==>
        d in g && rank[d] < rank[o] && (g[o].MovingCurve? ==> g[d].Source?)
  }

  /** `o` is `x` or is reached by its notifications. */
  ghost predicate DependsOn(g: Graph, rank: Rank, o: Id, x: Id)
    requires Acyclic(g, rank) && o in g
    decreases rank[o]
  {
    o == x || exists d :: d in Observed(g[o]) && DependsOn(g, rank, d, x)
  }

  ghost function Dependents(g: Graph, rank: Rank, x: Id): set<Id>
    requires Acyclic(g, rank)
  {
    set o | o in g && DependsOn(g, rank, o, x)
  }

  /** `x` is `o` or is reached by what it reads. */
  ghost predicate Reads(g: Graph, rank: Rank, o: Id, x: Id)
    requires Acyclic(g, rank) && o in g
    decreases rank[o]
  {
    o == x || exists d :: d in Inputs(g[o]) && Reads(g, rank, d, x)
  }

  /** Observable values and links are what can be changed from outside. */
  predicate Changeable(k: Kind) {
    k.Source? || k.Link?
  }

  /** Every lazy object at or below `o` is notified, on some path, of everything changeable that it reads. */
  ghost predicate Sound(g: Graph, rank: Rank, o: Id)
    requires Acyclic(g, rank) && o in g
  {
    forall p, x ::
      p in g && x in g && g[p].Lazy? && Changeable(g[x]) && Reads(g, rank, o, p) && Reads(g, rank, p, x) ==>
        DependsOn(g, rank, p, x)
  }

  datatype Model = Model(advance: (int, nat) -> int, compute: (Id, seq<int>) -> int)

  /** The value an object has when nothing is cached; none if a link on the way is empty. */
  ghost function Truth(m: Model, g: Graph, rank: Rank, values: map<Id, int>, o: Id): Option<int>
    requires Acyclic(g, rank) && o in g
    decreases rank[o], 1, 0
  {
    match g[o]
    case Source => Some(if o in values then values[o] else 0)
    case Link(None, _) => None
    case Link(Some(t), _) => Truth(m, g, rank, values, t)
    case FixedCurve(date) => Some(date)
    case MovingCurve(today, days) =>
      var date := Truth(m, g, rank, values, today);
      if date.None? then None else Some(m.advance(date.value, days))
    case Lazy(inputs) =>
      var r := Truths(m, g, rank, values, inputs, o);
      if r.None? then None else Some(m.compute(o, r.value))
  }

  ghost function Truths(m: Model, g: Graph, rank: Rank, values: map<Id, int>, inputs: seq<Id>,
                        o: Id): (r: Option<seq<int>>)
    requires Acyclic(g, rank) && o in g && forall d :: d in inputs ==> d in Inputs(g[o])
    decreases rank[o], 0, |inputs|
  {
    if inputs == [] then Some([])
    else
      var last := |inputs| - 1;
      var init := Truths(m, g, rank, values, inputs[..last], o);
      var v := Truth(m, g, rank, values, inputs[last]);
      if init.None? || v.None? then None else Some(init.value + [v.value])
  }

  // ----- the graph -----

  lemma {:induction false} DependsTransitive(g: Graph, rank: Rank, a: Id, b: Id, c: Id)
    requires Acyclic(g, rank) && a in g && b in g
    requires DependsOn(g, rank, a, b) && DependsOn(g, rank, b, c)
    ensures DependsOn(g, rank, a, c)
    decreases rank[a]
  {
    if a != b {
      var d :| d in Observed(g[a]) && DependsOn(g, rank, d, b);
      DependsTransitive(g, rank, d, b, c);
    }
  }

  lemma {:induction false} DependsRanked(g: Graph, rank: Rank, a: Id, b: Id)
    requires Acyclic(g, rank) && a in g && DependsOn(g, rank, a, b)
    ensures a == b || (b in g && rank[b] < rank[a])
    decreases rank[a]
  {
    if a != b {
      var d :| d in Observed(g[a]) && DependsOn(g, rank, d, b);
      DependsRanked(g, rank, d, b);
    }
  }

  /** Whoever depends on `x` and is not `x` depends on one of the objects registered with `x`. */
  lemma {:induction false} DependsThroughObserver(g: Graph, rank: Rank, z: Id, x: Id) returns (o: Id)
    requires Acyclic(g, rank) && z in g && z != x && DependsOn(g, rank, z, x)
    ensures o in g && x in Observed(g[o]) && DependsOn(g, rank, z, o)
    decreases rank[z]
  {
    var d :| d in Observed(g[z]) && DependsOn(g, rank, d, x);
    if d == x {
      o := z;
    } else {
      o := DependsThroughObserver(g, rank, d, x);
    }
  }

  lemma ObserverDepends(g: Graph, rank: Rank, o: Id, x: Id)
    requires Acyclic(g, rank) && o in g && x in Observed(g[o])
    ensures DependsOn(g, rank, o, x) && o != x && x in g
    ensures Dependents(g, rank, o) <= Dependents(g, rank, x) - {x}
    ensures Dependents(g, rank, o) < Dependents(g, rank, x)
  {
    assert x in Inputs(g[o]);
    assert DependsOn(g, rank, x, x);
    forall z | z in Dependents(g, rank, o) ensures z in Dependents(g, rank, x) && z != x {
      DependsTransitive(g, rank, z, o, x);
      DependsRanked(g, rank, z, o);
    }
  }

  /** Two graphs that differ at most in what `k` is. */
  ghost predicate SameExcept(g: Graph, h: Graph, k: Id) {
    g.Keys == h.Keys && forall o :: o in g && o != k ==> g[o] == h[o]
  }

  /** Relinking `k` does not change who depends on it ... */
  lemma {:induction false} DependentsKept(g: Graph, rank: Rank, h: Graph, rank': Rank, k: Id, z: Id)
    requires Acyclic(g, rank) && Acyclic(h, rank') && SameExcept(g, h, k) && z in g
    ensures DependsOn(g, rank, z, k) ==> DependsOn(h, rank', z, k)
    decreases rank[z]
  {
    if z != k && DependsOn(g, rank, z, k) {
      var d :| d in Observed(g[z]) && DependsOn(g, rank, d, k);
      DependentsKept(g, rank, h, rank', k, d);
    }
  }

  /** ... and every new dependence goes through `k`. */
  lemma {:induction false} NewDependents(g: Graph, rank: Rank, h: Graph, rank': Rank, k: Id, z: Id, y: Id)
    requires Acyclic(g, rank) && Acyclic(h, rank') && SameExcept(g, h, k) && k in h && z in h
    requires DependsOn(h, rank', z, y)
    ensures DependsOn(g, rank, z, y) || (DependsOn(g, rank, z, k) && DependsOn(h, rank', k, y))
    decreases rank'[z]
  {
    if z != k && z != y {
      var d :| d in Observed(h[z]) && DependsOn(h, rank', d, y);
      NewDependents(g, rank, h, rank', k, d, y);
    }
  }

  lemma {:induction false} ReadsTransitive(g: Graph, rank: Rank, a: Id, b: Id, c: Id)
    requires Acyclic(g, rank) && a in g && b in g
    requires Reads(g, rank, a, b) && Reads(g, rank, b, c)
    ensures Reads(g, rank, a, c)
    decreases rank[a]
  {
    if a != b {
      var d :| d in Inputs(g[a]) && Reads(g, rank, d, b);
      ReadsTransitive(g, rank, d, b, c);
    }
  }

  /** Every link at or below `o` is an observer of what it points to. */
  ghost predicate LinksObserve(g: Graph, rank: Rank, o: Id)
    requires Acyclic(g, rank) && o in g
  {
    forall k :: k in g && Reads(g, rank, o, k) && g[k].Link? ==> g[k].isObserver
  }

  lemma LinksObserveBelow(g: Graph, rank: Rank, o: Id, p: Id)
    requires Acyclic(g, rank) && o in g && p in g && LinksObserve(g, rank, o) && Reads(g, rank, o, p)
    ensures LinksObserve(g, rank, p)
  {
    hide Reads;
    forall k | k in g && Reads(g, rank, p, k) && g[k].Link? ensures g[k].isObserver {
      ReadsTransitive(g, rank, o, p, k);
    }
  }

  /** Then `o` is notified of everything that it reads, of each input of a lazy object in particular. */
  lemma {:induction false} ReadersAreNotified(g: Graph, rank: Rank, o: Id, x: Id)
    requires Acyclic(g, rank) && {o, x} <= g.Keys && LinksObserve(g, rank, o) && Reads(g, rank, o, x)
    ensures DependsOn(g, rank, o, x)
    decreases rank[o]
  {
    if o != x {
      var d :| d in Inputs(g[o]) && Reads(g, rank, d, x);
      assert Reads(g, rank, d, d);
      LinksObserveBelow(g, rank, o, d);
      ReadersAreNotified(g, rank, d, x);
      assert Reads(g, rank, o, o);
      assert d in Observed(g[o]);
    }
  }

  /** An object all of whose links are observers is sound. */
  lemma ObservingLinksAreSound(g: Graph, rank: Rank, o: Id)
    requires Acyclic(g, rank) && o in g && LinksObserve(g, rank, o)
    ensures Sound(g, rank, o)
  {
    hide Reads, DependsOn, LinksObserve;
    forall p, x | p in g && x in g && g[p].Lazy? && Changeable(g[x]) && Reads(g, rank, o, p) && Reads(g, rank, p, x)
      ensures DependsOn(g, rank, p, x)
    {
      LinksObserveBelow(g, rank, o, p);
      ReadersAreNotified(g, rank, p, x);
    }
  }

  /** What an object reads is sound if the object is. */
  lemma SoundBelow(g: Graph, rank: Rank, o: Id, d: Id)
    requires Acyclic(g, rank) && o in g && d in Inputs(g[o]) && Sound(g, rank, o)
    ensures d in g && Sound(g, rank, d)
  {
    hide DependsOn;
    forall p, x | p in g && x in g && g[p].Lazy? && Changeable(g[x]) && Reads(g, rank, d, p) && Reads(g, rank, p, x)
      ensures DependsOn(g, rank, p, x)
    {
      assert Reads(g, rank, o, p);
    }
  }

  /** Where `k` is not read, the graph looks the same before and after `k` changes. */
  lemma {:induction false} ReadsKept(g: Graph, rank: Rank, h: Graph, rank': Rank, k: Id, z: Id, x: Id)
    requires Acyclic(g, rank) && Acyclic(h, rank') && SameExcept(g, h, k) && z in h && !Reads(h, rank', z, k)
    ensures Reads(g, rank, z, x) <==> Reads(h, rank', z, x)
    ensures DependsOn(g, rank, z, x) <==> DependsOn(h, rank', z, x)
    decreases rank'[z]
  {
    assert g[z] == h[z];
    forall d | d in Inputs(h[z])
      ensures Reads(g, rank, d, x) <==> Reads(h, rank', d, x)
      ensures DependsOn(g, rank, d, x) <==> DependsOn(h, rank', d, x)
    {
      ReadsKept(g, rank, h, rank', k, d, x);
    }
  }

  lemma SoundKept(g: Graph, rank: Rank, h: Graph, rank': Rank, k: Id, z: Id)
    requires Acyclic(g, rank) && Acyclic(h, rank') && SameExcept(g, h, k) && z in h && !Reads(h, rank', z, k)
    requires Sound(h, rank', z)
    ensures Sound(g, rank, z)
  {
    hide DependsOn, Reads;
    forall p, x | p in g && x in g && g[p].Lazy? && Changeable(g[x]) && Reads(g, rank, z, p) && Reads(g, rank, p, x)
      ensures DependsOn(g, rank, p, x)
    {
      ReadsKept(g, rank, h, rank', k, z, p);
      if Reads(h, rank', p, k) {
        ReadsTransitive(h, rank', z, p, k);
      }
      ReadsKept(g, rank, h, rank', k, p, x);
      ReadsTransitive(h, rank', z, p, x);
      assert x != k && p != k;
    }
  }

  /** An object that does not read `k` keeps its value when `k` changes. */
  lemma {:induction false} TruthKept(m: Model, g: Graph, rank: Rank, values: map<Id, int>,
                                     h: Graph, rank': Rank, values': map<Id, int>, k: Id, z: Id)
    requires Acyclic(g, rank) && Acyclic(h, rank') && SameExcept(g, h, k) && z in h
    requires forall o :: o != k ==> ((o in values) == (o in values')) && (o in values ==> values[o] == values'[o])
    requires !Reads(h, rank', z, k)
    ensures Truth(m, g, rank, values, z) == Truth(m, h, rank', values', z)
    decreases rank'[z], 1, 0
  {
    assert g[z] == h[z];
    forall d | d in Inputs(h[z]) ensures Truth(m, g, rank, values, d) == Truth(m, h, rank', values', d) {
      TruthKept(m, g, rank, values, h, rank', values', k, d);
    }
    if h[z].Lazy? {
      TruthsKept(m, g, rank, values, h, rank', values', h[z].inputs, z);
    }
  }

  /** A sound lazy object that is not notified of a change at `k` does not read `k`. */
  lemma SoundReadsNothingElse(g: Graph, rank: Rank, l: Id, k: Id)
    requires Acyclic(g, rank) && l in g && k in g && g[l].Lazy? && Changeable(g[k])
    requires Sound(g, rank, l) && !DependsOn(g, rank, l, k)
    ensures !Reads(g, rank, l, k)
  {
    assert Reads(g, rank, l, l);
  }

  lemma {:induction false} TruthsKept(m: Model, g: Graph, rank: Rank, values: map<Id, int>,
                                      h: Graph, rank': Rank, values': map<Id, int>, inputs: seq<Id>, z: Id)
    requires Acyclic(g, rank) && Acyclic(h, rank') && z in g && z in h && g[z] == h[z]
    requires forall d :: d in inputs ==> d in Inputs(h[z])
    requires forall d :: d in inputs ==> Truth(m, g, rank, values, d) == Truth(m, h, rank', values', d)
    ensures Truths(m, g, rank, values, inputs, z) == Truths(m, h, rank', values', inputs, z)
    decreases |inputs|
  {
    if inputs != [] {
      TruthsKept(m, g, rank, values, h, rank', values', inputs[..|inputs| - 1], z);
    }
  }

  // ----- what a change does to the values above it -----

  function Total(s: seq<int>): int {
    if s == [] then 0 else Total(s[..|s| - 1]) + s[|s| - 1]
  }

  lemma TotalOfMore(s: seq<int>, v: int)
    ensures Total([]) == 0 && Total(s + [v]) == Total(s) + v
  {
    assert (s + [v])[..|s|] == s;
  }

  /** Dates are counted in days and a lazy object adds up what it reads. */
  ghost predicate Additive(m: Model) {
    (forall d: int, n: nat :: m.advance(d, n) == d + n) && forall o: Id, s: seq<int> :: m.compute(o, s) == Total(s)
  }

  function Summing(): Model {
    Model((d: int, n: nat) => d + n, (_, s: seq<int>) => Total(s))
  }

  /** Neither has a value, or the first one's is smaller or, unless it has to be, equal. */
  predicate Rises(a: Option<int>, b: Option<int>, strictly: bool) {
    if a.None? || b.None? then a == b else if strictly then a.value < b.value else a.value <= b.value
  }

  function Valued(values: map<Id, int>, x: Id): int {
    if x in values then values[x] else 0
  }

  function Totalled(r: Option<seq<int>>): Option<int> {
    if r.None? then None else Some(Total(r.value))
  }

  /** Where everything read is added up, a larger value of a source raises everything that reads it and lowers
      nothing. */
  lemma {:induction false} TruthRises(m: Model, g: Graph, rank: Rank, values: map<Id, int>, x: Id, v: int, z: Id)
    requires Acyclic(g, rank) && {x, z} <= g.Keys && g[x].Source? && Additive(m) && v > Valued(values, x)
    ensures Rises(Truth(m, g, rank, values, z), Truth(m, g, rank, values[x := v], z), Reads(g, rank, z, x))
    decreases rank[z], 1, 0
  {
    forall d | d in Inputs(g[z])
      ensures d in g
      ensures Rises(Truth(m, g, rank, values, d), Truth(m, g, rank, values[x := v], d), Reads(g, rank, d, x))
    {
      TruthRises(m, g, rank, values, x, v, d);
    }
    if g[z].Lazy? {
      TruthsRise(m, g, rank, values, x, v, g[z].inputs, z);
    }
  }

  ghost predicate ReadsAny(g: Graph, rank: Rank, inputs: seq<Id>, o: Id, x: Id)
    requires Acyclic(g, rank) && o in g && forall d :: d in inputs ==> d in Inputs(g[o])
  {
    exists d :: d in inputs && Reads(g, rank, d, x)
  }

  lemma {:induction false} TruthsRise(m: Model, g: Graph, rank: Rank, values: map<Id, int>, x: Id, v: int,
                                      inputs: seq<Id>, o: Id)
    requires Acyclic(g, rank) && o in g && forall d :: d in inputs ==> d in Inputs(g[o])
    requires forall d :: d in inputs ==>
      Rises(Truth(m, g, rank, values, d), Truth(m, g, rank, values[x := v], d), Reads(g, rank, d, x))
    ensures Rises(Totalled(Truths(m, g, rank, values, inputs, o)),
                  Totalled(Truths(m, g, rank, values[x := v], inputs, o)),
                  ReadsAny(g, rank, inputs, o, x))
    decreases |inputs|
  {
    if inputs != [] {
      var last := |inputs| - 1;
      TruthsRise(m, g, rank, values, x, v, inputs[..last], o);
    }
  }

  /** No link that the object reads is empty. */
  ghost predicate Complete(g: Graph, rank: Rank, o: Id)
    requires Acyclic(g, rank) && o in g
  {
    forall k :: k in g && Reads(g, rank, o, k) ==> !(g[k].Link? && g[k].target.None?)
  }

  lemma CompleteInputs(g: Graph, rank: Rank, o: Id)
    requires Acyclic(g, rank) && o in g
    ensures Complete(g, rank, o)
       <==> !(g[o].Link? && g[o].target.None?) && forall d :: d in Inputs(g[o]) ==> Complete(g, rank, d)
  {
    forall d, k | d in Inputs(g[o]) && k in g && Reads(g, rank, d, k) ensures Reads(g, rank, o, k) {}
    assert Reads(g, rank, o, o);
  }

  /** Those are the objects that have a value. */
  lemma {:induction false} CompleteHasValue(m: Model, g: Graph, rank: Rank, values: map<Id, int>, o: Id)
    requires Acyclic(g, rank) && o in g
    ensures Truth(m, g, rank, values, o).Some? <==> Complete(g, rank, o)
    decreases rank[o], 1, 0
  {
    CompleteInputs(g, rank, o);
    hide Complete, Reads;
    forall d | d in Inputs(g[o]) ensures Truth(m, g, rank, values, d).Some? <==> Complete(g, rank, d) {
      CompleteHasValue(m, g, rank, values, d);
    }
    if g[o].Lazy? {
      AllHaveValues(m, g, rank, values, g[o].inputs, o);
    }
  }

  lemma {:induction false} AllHaveValues(m: Model, g: Graph, rank: Rank, values: map<Id, int>, inputs: seq<Id>, o: Id)
    requires Acyclic(g, rank) && o in g && forall d :: d in inputs ==> d in Inputs(g[o])
    ensures Truths(m, g, rank, values, inputs, o).Some?
       <==> forall d :: d in inputs ==> Truth(m, g, rank, values, d).Some?
    decreases |inputs|
  {
    if inputs != [] {
      var init, last := inputs[..|inputs| - 1], inputs[|inputs| - 1];
      AllHaveValues(m, g, rank, values, init, o);
      assert inputs == init + [last];
      assert Truths(m, g, rank, values, inputs, o).Some?
        <==> Truths(m, g, rank, values, init, o).Some? && Truth(m, g, rank, values, last).Some?;
    }
  }

  /** What the object had cached, if its cache survives a new value `v` of `x`, is still its value. */
  ghost predicate StaysRight(m: Model, g: Graph, rank: Rank, values: map<Id, int>, l: Id, x: Id, v: int)
    requires Acyclic(g, rank) && l in g
  {
    DependsOn(g, rank, l, x) || Truth(m, g, rank, values[x := v], l) == Truth(m, g, rank, values, l)
  }

  /** A lazy object never keeps a stale cache when a source changes, whatever is computed from whatever values, exactly
      when it is notified of the source if it reads it; one that has no value has no cache either. */
  lemma ReadersMustBeNotified(g: Graph, rank: Rank, l: Id, x: Id)
    requires Acyclic(g, rank) && {l, x} <= g.Keys && g[l].Lazy? && g[x].Source?
    ensures (forall m, values, v :: StaysRight(m, g, rank, values, l, x, v))
       <==> (Complete(g, rank, l) && Reads(g, rank, l, x) ==> DependsOn(g, rank, l, x))
  {
    hide Truth, Truths, Reads, DependsOn, Complete, Acyclic;
    if Complete(g, rank, l) && Reads(g, rank, l, x) && !DependsOn(g, rank, l, x) {
      TruthRises(Summing(), g, rank, map[], x, 1, l);
      CompleteHasValue(Summing(), g, rank, map[], l);
      assert !StaysRight(Summing(), g, rank, map[], l, x, 1);
    } else {
      forall m, values, v ensures StaysRight(m, g, rank, values, l, x, v) {
        CompleteHasValue(m, g, rank, values, l);
        CompleteHasValue(m, g, rank, values[x := v], l);
        if !Reads(g, rank, l, x) {
          TruthKept(m, g, rank, values, g, rank, values[x := v], x, l);
        }
      }
    }
  }

  // ----- caches -----

  /** Below a lazy object that has not calculated, nothing lazy has: `update` relies on it to stop there. */
  ghost predicate ColdBelow(g: Graph, rank: Rank, calculated: set<Id>, y: Id)
    requires Acyclic(g, rank)
  {
    forall z :: z in Dependents(g, rank, y) ==> z !in calculated
  }

  ghost predicate ColdClosed(g: Graph, rank: Rank, calculated: set<Id>, region: set<Id>)
    requires Acyclic(g, rank)
  {
    forall y :: y in region && y in g && g[y].Lazy? && y !in calculated ==> ColdBelow(g, rank, calculated, y)
  }

  lemma ColdAfterClearing(g: Graph, rank: Rank, calculated: set<Id>, x: Id)
    requires Acyclic(g, rank) && x in g && !g[x].Lazy? && ColdClosed(g, rank, calculated, g.Keys)
    ensures ColdClosed(g, rank, calculated - (Dependents(g, rank, x) - {x}), g.Keys)
  {
    var cleared := Dependents(g, rank, x) - {x};
    forall y, z | y in g && g[y].Lazy? && y !in calculated - cleared && z in Dependents(g, rank, y)
      ensures z !in calculated - cleared
    {
      if y in calculated {
        DependsTransitive(g, rank, z, y, x);
        DependsRanked(g, rank, z, y);
        DependsRanked(g, rank, y, x);
      }
    }
  }

  /** While a notification is under way, the objects cleared so far do not disturb the chain. */
  lemma ColdDuringClearing(g: Graph, rank: Rank, calculated: set<Id>, done: set<Id>, region: set<Id>, part: set<Id>)
    requires Acyclic(g, rank) && ColdClosed(g, rank, calculated, region) && part <= region
    requires ClosedUpwards(g, rank, done)
    ensures ColdClosed(g, rank, calculated - done, part)
  {
    hide DependsOn, Acyclic;
    forall y | y in part && y in g && g[y].Lazy? && y !in calculated - done
      ensures ColdBelow(g, rank, calculated - done, y)
    {
      assert y in done || ColdBelow(g, rank, calculated, y);
    }
  }

  /** With an object, the set contains everything that depends on it. */
  ghost predicate ClosedUpwards(g: Graph, rank: Rank, s: set<Id>)
    requires Acyclic(g, rank)
  {
    forall y, z :: y in s && z in Dependents(g, rank, y) ==> z in s
  }

  lemma DependentsClosed(g: Graph, rank: Rank, done: set<Id>, o: Id)
    requires Acyclic(g, rank) && o in g && ClosedUpwards(g, rank, done)
    ensures ClosedUpwards(g, rank, done + Dependents(g, rank, o))
  {
    forall y, z | y in done + Dependents(g, rank, o) && z in Dependents(g, rank, y)
      ensures z in done + Dependents(g, rank, o)
    {
      if y in Dependents(g, rank, o) {
        DependsTransitive(g, rank, z, y, o);
      }
    }
  }

  /** The objects registered with `x`, and what depends on them, are all that depends on `x`. */
  lemma DependentsCovered(g: Graph, rank: Rank, x: Id, done: set<Id>)
    requires Acyclic(g, rank) && x in g && x in ObserversOf(g)
    requires forall o :: o in ObserversOf(g)[x] ==> o in g && Dependents(g, rank, o) <= done
    ensures Dependents(g, rank, x) - {x} <= done
  {
    hide ObserversOf;
    forall z | z in Dependents(g, rank, x) - {x} ensures z in done {
      var o := DependsThroughObserver(g, rank, z, x);
      ObserverListed(g, x, o);
      assert z in Dependents(g, rank, o);
    }
  }

  lemma NothingClosed(g: Graph, rank: Rank)
    requires Acyclic(g, rank)
    ensures ClosedUpwards(g, rank, {})
  {
  }

  lemma ObserverListed(g: Graph, x: Id, o: Id)
    requires x in g
    ensures x in ObserversOf(g)
    ensures o in ObserversOf(g)[x] <==> o in g && x in Observed(g[o])
  {
  }

  lemma ColdAfterRelinking(g: Graph, rank: Rank, h: Graph, rank': Rank, k: Id, calculated: set<Id>, y: Id, z: Id)
    requires Acyclic(g, rank) && Acyclic(h, rank') && SameExcept(g, h, k) && k in h && h[k].Link?
    requires ColdClosed(g, rank, calculated, g.Keys)
    requires y in h && h[y].Lazy? && y !in calculated && z in Dependents(h, rank', y)
    ensures z !in calculated || (z in Dependents(h, rank', k) && DependsOn(h, rank', k, y))
  {
    NewDependents(g, rank, h, rank', k, z, y);
    DependentsKept(g, rank, h, rank', k, z);
    if DependsOn(g, rank, z, y) {
      assert ColdBelow(g, rank, calculated, y);
    }
  }

  lemma RelinkedIsColdBelow(g: Graph, rank: Rank, h: Graph, rank': Rank, k: Id, calculated: set<Id>)
    requires Acyclic(g, rank) && Acyclic(h, rank') && SameExcept(g, h, k) && k in h && h[k].Link?
    requires ColdClosed(g, rank, calculated, g.Keys)
    ensures ColdClosed(h, rank', calculated, Dependents(h, rank', k) - {k})
  {
    forall y, z | && y in Dependents(h, rank', k) && y != k && h[y].Lazy? && y !in calculated
                  && z in Dependents(h, rank', y)
      ensures z !in calculated
    {
      ColdAfterRelinking(g, rank, h, rank', k, calculated, y, z);
      DependsRanked(h, rank', y, k);
      if DependsOn(h, rank', k, y) {
        DependsRanked(h, rank', k, y);
      }
    }
  }

  lemma ColdAfterRelinkAndClear(g: Graph, rank: Rank, h: Graph, rank': Rank, k: Id, calculated: set<Id>)
    requires Acyclic(g, rank) && Acyclic(h, rank') && SameExcept(g, h, k) && k in h && h[k].Link? && k !in calculated
    requires ColdClosed(g, rank, calculated, g.Keys)
    ensures ColdClosed(h, rank', calculated - (Dependents(h, rank', k) - {k}), h.Keys)
  {
    var left := calculated - (Dependents(h, rank', k) - {k});
    forall y, z | y in h && h[y].Lazy? && y !in left && z in Dependents(h, rank', y)
      ensures z !in left
    {
      if y in calculated {
        DependsTransitive(h, rank', z, y, k);
      } else {
        ColdAfterRelinking(g, rank, h, rank', k, calculated, y, z);
      }
    }
  }

  /** The observers that the registrations of a graph give rise to. */
  function ObserversOf(g: Graph): map<Id, set<Id>> {
    map d | d in g :: set o | o in g && d in Observed(g[o])
  }

  /** Unregistering a link from its old target and registering it with its new one. */
  function Reregistered(observers: map<Id, set<Id>>, k: Id, was: Kind, now: Kind): map<Id, set<Id>>
    requires Observed(was) <= observers.Keys && Observed(now) <= observers.Keys && was.Link? && now.Link?
  {
    var left := if was.target.Some? && was.isObserver
                then observers[was.target.value := observers[was.target.value] - {k}] else observers;
    if now.target.Some? && now.isObserver
    then left[now.target.value := left[now.target.value] + {k}] else left
  }

  lemma TargetsKnown(g: Graph, rank: Rank, k: Id, now: Kind, rank': Rank)
    requires Acyclic(g, rank) && k in g && Acyclic(g[k := now], rank')
    ensures Inputs(g[k]) <= g.Keys && Inputs(now) <= g.Keys
  {
    assert g[k := now][k] == now;
    assert g[k := now].Keys == g.Keys;
    forall d | d in Inputs(now) ensures d in g {
      assert d in g[k := now];
    }
  }

  lemma ReregisteredObservers(g: Graph, k: Id, now: Kind)
    requires k in g && g[k].Link? && now.Link? && Observed(g[k]) <= g.Keys && Observed(now) <= g.Keys
    ensures Reregistered(ObserversOf(g), k, g[k], now) == ObserversOf(g[k := now])
  {
    var h := g[k := now];
    var r := Reregistered(ObserversOf(g), k, g[k], now);
    forall d | d in g ensures r[d] == ObserversOf(h)[d] {
      assert forall o :: o in r[d] <==> o in h && d in Observed(h[o]);
    }
  }

  /** Nothing that forwards only while calculated lies between a moving curve and its evaluation date. */
  lemma CurveBelowNoLazy(g: Graph, rank: Rank, c: Id, l: Id)
    requires Acyclic(g, rank) && c in g && g[c].MovingCurve? && l in g && g[l].Lazy?
    ensures !DependsOn(g, rank, c, l)
  {
    assert !DependsOn(g, rank, g[c].today, l);
  }

  /** A moving curve is notified of everything it reads. */
  lemma CurveReads(g: Graph, rank: Rank, c: Id, x: Id)
    requires Acyclic(g, rank) && c in g && g[c].MovingCurve? && Reads(g, rank, c, x)
    ensures DependsOn(g, rank, c, x)
  {
    if c != x {
      var d :| d in Inputs(g[c]) && Reads(g, rank, d, x);
      assert d == x && DependsOn(g, rank, d, x);
    }
  }

  /** Every lazy object that `o` hears from has calculated. */
  ghost predicate Warm(g: Graph, rank: Rank, calculated: set<Id>, o: Id)
    requires Acyclic(g, rank) && o in g
  {
    forall y :: y in g && g[y].Lazy? && DependsOn(g, rank, o, y) ==> y in calculated
  }

  lemma {:induction false} TruthsPrefix(m: Model, g: Graph, rank: Rank, values: map<Id, int>, inputs: seq<Id>, o: Id,
                                        i: nat)
    requires Acyclic(g, rank) && o in g && forall d :: d in inputs ==> d in Inputs(g[o])
    requires i < |inputs| && Truth(m, g, rank, values, inputs[i]).None?
    ensures Truths(m, g, rank, values, inputs, o).None?
    decreases |inputs|
  {
    if i < |inputs| - 1 {
      TruthsPrefix(m, g, rank, values, inputs[..|inputs| - 1], o, i);
    }
  }

  lemma TruthsNext(m: Model, g: Graph, rank: Rank, values: map<Id, int>, inputs: seq<Id>, o: Id, i: nat, read: seq<int>)
    requires Acyclic(g, rank) && o in g && i < |inputs| && forall d :: d in inputs ==> d in Inputs(g[o])
    requires Truths(m, g, rank, values, inputs[..i], o) == Some(read)
    requires inputs[i] in g && Truth(m, g, rank, values, inputs[i]).Some?
    ensures Truths(m, g, rank, values, inputs[..i + 1], o) == Some(read + [Truth(m, g, rank, values, inputs[i]).value])
  {
    hide Truth;
    assert inputs[..i + 1][..i] == inputs[..i] && inputs[..i + 1][i] == inputs[i];
  }

  lemma NoInputs(m: Model, g: Graph, rank: Rank, values: map<Id, int>, inputs: seq<Id>, o: Id)
    requires Acyclic(g, rank) && o in g
    ensures Truths(m, g, rank, values, inputs[..0], o) == Some([])
  {
  }

  /** The value of an object that does not cache, in terms of what it points to. */
  lemma TruthCases(m: Model, g: Graph, rank: Rank, values: map<Id, int>, o: Id)
    requires Acyclic(g, rank) && o in g
    ensures g[o].Source? ==> Truth(m, g, rank, values, o) == Some(if o in values then values[o] else 0)
    ensures g[o].FixedCurve? ==> Truth(m, g, rank, values, o) == Some(g[o].date)
    ensures g[o].Link? && g[o].target.None? ==> Truth(m, g, rank, values, o) == None
    ensures g[o].Link? && g[o].target.Some? ==>
      g[o].target.value in g && Truth(m, g, rank, values, o) == Truth(m, g, rank, values, g[o].target.value)
    ensures g[o].MovingCurve? ==>
      Truth(m, g, rank, values, o)
      == Some(m.advance(if g[o].today in values then values[g[o].today] else 0, g[o].settlementDays))
  {
    if g[o].Link? && g[o].target.Some? {
      assert g[o].target.value in Inputs(g[o]);
    }
    if g[o].MovingCurve? {
      assert g[o].today in Inputs(g[o]);
    }
  }

  /** A lazy object over sources computes its result from their values, in the order of its inputs. */
  lemma LazyOfSources(m: Model, g: Graph, rank: Rank, values: map<Id, int>, o: Id, read: seq<int>)
    requires Acyclic(g, rank) && o in g && g[o].Lazy? && |read| == |g[o].inputs|
    requires forall i :: 0 <= i < |read| ==>
      g[o].inputs[i] in g && g[g[o].inputs[i]].Source?
      && read[i] == if g[o].inputs[i] in values then values[g[o].inputs[i]] else 0
    ensures Truth(m, g, rank, values, o) == Some(m.compute(o, read))
  {
    hide Truth, Truths, Acyclic;
    var inputs := g[o].inputs;
    NoInputs(m, g, rank, values, inputs, o);
    for i := 0 to |inputs|
      invariant Truths(m, g, rank, values, inputs[..i], o) == Some(read[..i])
    {
      TruthCases(m, g, rank, values, inputs[i]);
      TruthsNext(m, g, rank, values, inputs, o, i, read[..i]);
      assert read[..i] + [read[i]] == read[..i + 1];
    }
    assert inputs[..|inputs|] == inputs && read[..|read|] == read;
    TruthOfLazy(m, g, rank, values, o);
  }

  /** Where days are added, the dates of two curves on the same evaluation date differ by their settlement days. */
  lemma SettlementMovesDate(m: Model, g: Graph, rank: Rank, values: map<Id, int>, c: Id, d: Id)
    requires Acyclic(g, rank) && {c, d} <= g.Keys && g[c].MovingCurve? && g[d].MovingCurve?
    requires g[c].today == g[d].today && forall date: int, n: nat :: m.advance(date, n) == date + n
    ensures Truth(m, g, rank, values, c).Some? && Truth(m, g, rank, values, d).Some?
    ensures Truth(m, g, rank, values, d).value - Truth(m, g, rank, values, c).value
         == g[d].settlementDays - g[c].settlementDays
  {
    hide *;
    TruthCases(m, g, rank, values, c);
    TruthCases(m, g, rank, values, d);
  }

  /** The value of a lazy object, once its inputs have been read. */
  lemma TruthOfLazy(m: Model, g: Graph, rank: Rank, values: map<Id, int>, o: Id)
    requires Acyclic(g, rank) && o in g && g[o].Lazy?
    ensures var r := Truths(m, g, rank, values, g[o].inputs, o);
      Truth(m, g, rank, values, o) == if r.None? then None else Some(m.compute(o, r.value))
  {
  }

  lemma InputIsLower(g: Graph, rank: Rank, o: Id, d: Id)
    requires Acyclic(g, rank) && o in g && d in Inputs(g[o])
    ensures d in g && d in rank && o in rank && rank[d] < rank[o]
  {
  }

  lemma WarmAbove(g: Graph, rank: Rank, calculated: set<Id>, o: Id)
    requires Acyclic(g, rank) && o in g && !g[o].Lazy?
    requires forall d :: d in Observed(g[o]) ==> d in g && Warm(g, rank, calculated, d)
    ensures Warm(g, rank, calculated, o)
  {
    forall y | y in g && g[y].Lazy? && DependsOn(g, rank, o, y) ensures y in calculated {
      var d :| d in Observed(g[o]) && DependsOn(g, rank, d, y);
      assert Warm(g, rank, calculated, d);
    }
  }

  lemma CurveIsWarm(g: Graph, rank: Rank, calculated: set<Id>, c: Id)
    requires Acyclic(g, rank) && c in g && g[c].MovingCurve?
    ensures Warm(g, rank, calculated, c)
  {
    forall y | y in g && g[y].Lazy? ensures !DependsOn(g, rank, c, y) {
      CurveBelowNoLazy(g, rank, c, y);
    }
  }

  lemma WarmGrows(g: Graph, rank: Rank, calculated: set<Id>, more: set<Id>, inputs: seq<Id>)
    requires Acyclic(g, rank) && calculated <= more
    requires forall d :: d in inputs ==> d in g && Warm(g, rank, calculated, d)
    ensures forall d :: d in inputs ==> Warm(g, rank, more, d)
  {
    hide DependsOn, Acyclic;
  }

  /** Once everything a lazy object hears from has calculated, it can join without breaking the chain. */
  lemma ColdAfterCalculating(g: Graph, rank: Rank, calculated: set<Id>, o: Id)
    requires Acyclic(g, rank) && o in g && g[o].Lazy? && ColdClosed(g, rank, calculated, g.Keys)
    requires forall d :: d in Inputs(g[o]) ==> d in g && Warm(g, rank, calculated, d)
    ensures ColdClosed(g, rank, calculated + {o}, g.Keys)
    ensures Warm(g, rank, calculated + {o}, o)
  {
    forall y | y in g && g[y].Lazy? && y != o && DependsOn(g, rank, o, y) ensures y in calculated {
      var d :| d in Observed(g[o]) && DependsOn(g, rank, d, y);
      assert Warm(g, rank, calculated, d);
    }
    hide DependsOn, Acyclic;
    forall y | y in g && g[y].Lazy? && y !in calculated + {o} ensures ColdBelow(g, rank, calculated + {o}, y) {
      assert ColdBelow(g, rank, calculated, y);
    }
  }

  lemma TruthsOfOne(m: Model, g: Graph, rank: Rank, values: map<Id, int>, d: Id, o: Id)
    requires Acyclic(g, rank) && o in g && d in Inputs(g[o])
    requires Truth(m, g, rank, values, d).Some?
    ensures Truths(m, g, rank, values, [d], o) == Some([Truth(m, g, rank, values, d).value])
  {
    var v := Truth(m, g, rank, values, d).value;
    assert [d][..0] == [];
    assert Truths(m, g, rank, values, [], o) == Some([]);
    assert [] + [v] == [v];
  }

  class Market {
    const model: Model
    var kinds: Graph
    var observers: map<Id, set<Id>>
    var values: map<Id, int>
    var updated: set<Id>
    var referenceDates: map<Id, int>
    var calculated: set<Id>
    var results: map<Id, int>
    ghost var rank: Rank

    /** The registrations are those that the objects have asked for. */
    ghost predicate Wired()
      reads this
    {
      && Acyclic(kinds, rank)
      && observers == ObserversOf(kinds)
      && (forall c :: c in updated ==> c in kinds && kinds[c].MovingCurve?)
      && (forall l :: l in calculated ==> l in kinds && kinds[l].Lazy?)
    }

    /** No cache is stale: every calculated object that is soundly registered holds the value it would compute
        from scratch, and every updated moving curve the date it would advance to. */
    ghost predicate Coherent()
      reads this
    {
      && Wired()
      && ColdClosed(kinds, rank, calculated, kinds.Keys)
      && (forall c :: c in updated ==>
            c in referenceDates && Truth(model, kinds, rank, values, c) == Some(referenceDates[c]))
      && (forall l :: l in calculated ==>
            l in results && (Sound(kinds, rank, l) ==> Truth(model, kinds, rank, values, l) == Some(results[l])))
    }

    constructor (model: Model, kinds: Graph, values: map<Id, int>, ghost rank: Rank)
      requires Acyclic(kinds, rank)
      ensures Coherent() && this.kinds == kinds && this.values == values && this.model == model
    {
      this.model := model;
      this.kinds, this.values := kinds, values;
      observers := ObserversOf(kinds);
      updated, referenceDates := {}, map[];
      calculated, results := {}, map[];
      this.rank := rank;
    }

    /** Every registered observer is updated. */
    method NotifyObservers(x: Id)
      requires Wired() && x in kinds
      requires ColdClosed(kinds, rank, calculated, Dependents(kinds, rank, x) - {x})
      modifies this`calculated, this`updated
      ensures calculated == old(calculated) - (Dependents(kinds, rank, x) - {x})
      ensures updated == old(updated) - (Dependents(kinds, rank, x) - {x})
      decreases Dependents(kinds, rank, x), 0
    {
      hide DependsOn, Acyclic, ColdClosed, ObserversOf, Observed, Dependents, ClosedUpwards;
      ObserverListed(kinds, x, x);
      NothingClosed(kinds, rank);
      var pending := observers[x];
      ghost var below := Dependents(kinds, rank, x) - {x};
      ghost var done := {};
      while pending != {}
        invariant pending <= observers[x] && done <= below && ClosedUpwards(kinds, rank, done)
        invariant forall o :: o in observers[x] - pending ==> o in kinds && Dependents(kinds, rank, o) <= done
        invariant calculated == old(calculated) - done && updated == old(updated) - done
      {
        var o :| o in pending;
        ObserverListed(kinds, x, o);
        ObserverDepends(kinds, rank, o, x);
        ColdDuringClearing(kinds, rank, old(calculated), done, below, Dependents(kinds, rank, o));
        Update(o);
        DependentsClosed(kinds, rank, done, o);
        done := done + Dependents(kinds, rank, o);
        pending := pending - {o};
      }
      DependentsCovered(kinds, rank, x, done);
    }

    /** What an object does when something it is registered with has changed. */
    method Update(o: Id)
      requires Wired() && o in kinds
      requires ColdClosed(kinds, rank, calculated, Dependents(kinds, rank, o))
      modifies this`calculated, this`updated
      ensures calculated == old(calculated) - Dependents(kinds, rank, o)
      ensures updated == old(updated) - Dependents(kinds, rank, o)
      decreases Dependents(kinds, rank, o), 1
    {
      assert DependsOn(kinds, rank, o, o);
      match kinds[o] {
        case Lazy(_) =>
          forall c | c in updated ensures c !in Dependents(kinds, rank, o) {
            CurveBelowNoLazy(kinds, rank, c, o);
          }
          if o in calculated {
            calculated := calculated - {o};
            NotifyObservers(o);
          }
        case MovingCurve(_, _) =>
          updated := updated - {o};
          NotifyObservers(o);
        case _ =>
          NotifyObservers(o);
      }
    }

    /** Assignment to an observable value, such as the evaluation date. */
    method SetValue(s: Id, v: int)
      requires Coherent() && s in kinds && kinds[s].Source?
      modifies this`values, this`calculated, this`updated
      ensures Coherent() && values == old(values)[s := v]
      ensures calculated == old(calculated) - Dependents(kinds, rank, s)
      ensures updated == old(updated) - Dependents(kinds, rank, s)
    {
      values := values[s := v];
      ColdAfterClearing(kinds, rank, calculated, s);
      NotifyObservers(s);
      CachesKept(kinds, rank, old(values), s);
    }

    /** Reads a value, calculating on the way whatever is not cached. */
    method Read(id: Id) returns (r: Option<int>)
      requires Coherent() && id in kinds
      modifies this`updated, this`referenceDates, this`calculated, this`results
      ensures Coherent() && old(calculated) <= calculated && old(updated) <= updated
      ensures Sound(kinds, rank, id) ==> r == Truth(model, kinds, rank, values, id)
      ensures r.Some? ==> Warm(kinds, rank, calculated, id)
      ensures id in old(calculated) ==> r == Some(old(results)[id])
      decreases rank[id], 2
    {
      hide Truth, Sound, DependsOn, Reads, Warm, ColdClosed, Acyclic;
      TruthCases(model, kinds, rank, values, id);
      match kinds[id] {
        case Lazy(_) => r := ReadLazy(id);
        case MovingCurve(_, _) => r := ReferenceDate(id);
        case Link(Some(t), _) =>
          InputIsLower(kinds, rank, id, t);
          if Sound(kinds, rank, id) {
            SoundBelow(kinds, rank, id, t);
          }
          r := Read(t);
          if r.Some? {
            WarmAbove(kinds, rank, calculated, id);
          }
        case Link(None, _) => r := None;
        case Source =>
          r := Some(if id in values then values[id] else 0);
          WarmAbove(kinds, rank, calculated, id);
        case FixedCurve(date) =>
          r := Some(date);
          WarmAbove(kinds, rank, calculated, id);
      }
    }

    /** A lazy object returns its results, calculating them first if it has none. */
    method ReadLazy(o: Id) returns (r: Option<int>)
      requires Coherent() && o in kinds && kinds[o].Lazy?
      modifies this`updated, this`referenceDates, this`calculated, this`results
      ensures Coherent() && old(calculated) <= calculated && old(updated) <= updated
      ensures Sound(kinds, rank, o) ==> r == Truth(model, kinds, rank, values, o)
      ensures r.Some? ==> Warm(kinds, rank, calculated, o)
      ensures o in old(calculated) ==> r == Some(old(results)[o])
      decreases rank[o], 1
    {
      hide Truth, Sound, DependsOn, Reads, Warm, ColdClosed, Wired;
      AcyclicMarket();
      if o in calculated {
        WarmIfCalculated(o);
        r := Some(results[o]);
      } else {
        r := PerformCalculations(o);
        if r.Some? {
          KeepResult(o, r.value);
        }
      }
    }

    method KeepResult(o: Id, v: int)
      requires Coherent() && o in kinds && kinds[o].Lazy?
      requires Sound(kinds, rank, o) ==> Truth(model, kinds, rank, values, o) == Some(v)
      requires forall d :: d in kinds[o].inputs ==> d in kinds && Warm(kinds, rank, calculated, d)
      modifies this`calculated, this`results
      ensures Coherent() && Warm(kinds, rank, calculated, o)
      ensures calculated == old(calculated) + {o} && results == old(results)[o := v]
    {
      hide Truth, Sound, DependsOn, Reads, Warm, ColdClosed, Acyclic;
      ColdAfterCalculating(kinds, rank, calculated, o);
      results := results[o := v];
      calculated := calculated + {o};
    }

    /** The reference date of a moving curve is advanced from the evaluation date and kept until the next update. */
    method ReferenceDate(c: Id) returns (r: Option<int>)
      requires Coherent() && c in kinds && kinds[c].MovingCurve?
      modifies this`updated, this`referenceDates
      ensures Coherent() && old(updated) <= updated
      ensures r == Some(model.advance(if kinds[c].today in values then values[kinds[c].today] else 0,
                                      kinds[c].settlementDays))
      ensures r == Truth(model, kinds, rank, values, c)
      ensures Warm(kinds, rank, calculated, c)
    {
      hide Truth, Sound, DependsOn, Reads, Warm, ColdClosed, Acyclic, ObserversOf;
      TruthCases(model, kinds, rank, values, c);
      CurveIsWarm(kinds, rank, calculated, c);
      if c !in updated {
        var today := kinds[c].today;
        var date := if today in values then values[today] else 0;
        referenceDates := referenceDates[c := model.advance(date, kinds[c].settlementDays)];
        updated := updated + {c};
      }
      return Some(referenceDates[c]);
    }

    lemma WarmIfCalculated(l: Id)
      requires Coherent() && l in calculated
      ensures Warm(kinds, rank, calculated, l)
    {
      forall y | y in kinds && kinds[y].Lazy? && DependsOn(kinds, rank, l, y) ensures y in calculated {
        assert l in Dependents(kinds, rank, y);
        assert !ColdBelow(kinds, rank, calculated, y);
      }
    }

    /** Reads the inputs of a lazy object and computes its result; fails if one of them fails. */
    method PerformCalculations(o: Id) returns (r: Option<int>)
      requires Coherent() && o in kinds && kinds[o].Lazy?
      modifies this`updated, this`referenceDates, this`calculated, this`results
      ensures Coherent() && old(calculated) <= calculated && old(updated) <= updated
      ensures Sound(kinds, rank, o) ==> r == Truth(model, kinds, rank, values, o)
      ensures r.Some? ==> forall d :: d in kinds[o].inputs ==> d in kinds && Warm(kinds, rank, calculated, d)
      decreases rank[o], 0
    {
      hide Truth, Truths, Sound, DependsOn, Reads, Warm, ColdClosed, Acyclic, Wired;
      var inputs := kinds[o].inputs;
      var read: seq<int> := [];
      AcyclicMarket();
      NoInputs(model, kinds, rank, values, inputs, o);
      TruthOfLazy(model, kinds, rank, values, o);
      for i := 0 to |inputs|
        invariant Coherent() && old(calculated) <= calculated && old(updated) <= updated
        invariant Sound(kinds, rank, o) ==> Truths(model, kinds, rank, values, inputs[..i], o) == Some(read)
        invariant forall d :: d in inputs[..i] ==> d in kinds && Warm(kinds, rank, calculated, d)
      {
        var d := inputs[i];
        ghost var before := calculated;
        InputIsLower(kinds, rank, o, d);
        if Sound(kinds, rank, o) {
          SoundBelow(kinds, rank, o, d);
        }
        var v := Read(d);
        if v.None? {
          if Sound(kinds, rank, o) {
            TruthsPrefix(model, kinds, rank, values, inputs, o, i);
          }
          return None;
        }
        if Sound(kinds, rank, o) {
          TruthsNext(model, kinds, rank, values, inputs, o, i, read);
        }
        WarmGrows(kinds, rank, before, calculated, inputs[..i]);
        assert inputs[..i + 1] == inputs[..i] + [d];
        read := read + [v.value];
      }
      assert inputs[..|inputs|] == inputs;
      return Some(model.compute(o, read));
    }

    lemma AcyclicMarket()
      requires Wired()
      ensures Acyclic(kinds, rank)
    {
    }

    /** Relinks a handle. The new graph must be free of cycles, as the ranks show. */
    method LinkTo(k: Id, h: Option<Id>, registerAsObserver: bool, ghost rank': Rank)
      requires Coherent() && k in kinds && kinds[k].Link?
      requires Acyclic(kinds[k := Link(h, registerAsObserver)], rank')
      modifies this
      ensures Coherent() && kinds == old(kinds)[k := Link(h, registerAsObserver)]
      ensures values == old(values) && results == old(results) && referenceDates == old(referenceDates)
      ensures kinds == old(kinds) ==> calculated == old(calculated) && updated == old(updated)
      ensures kinds != old(kinds) ==>
        && calculated == old(calculated) - Dependents(kinds, rank, k)
        && updated == old(updated) - Dependents(kinds, rank, k)
    {
      hide Truth, Sound, DependsOn, Acyclic, ColdClosed, Inputs, Observed, ObserversOf;
      if kinds[k] != Link(h, registerAsObserver) {
        Relink(k, h, registerAsObserver, rank');
        RelinkedIsColdBelow(old(kinds), old(rank), kinds, rank, k, calculated);
        ColdAfterRelinkAndClear(old(kinds), old(rank), kinds, rank, k, calculated);
        NotifyObservers(k);
        CachesKept(old(kinds), old(rank), old(values), k);
      } else {
        assert kinds == kinds[k := Link(h, registerAsObserver)];
      }
    }

    /** What is still cached after a change at `k` does not depend on `k`, so it is still right. */
    lemma CachesKept(g: Graph, rank0: Rank, values0: map<Id, int>, k: Id)
      requires Wired() && Acyclic(g, rank0) && SameExcept(g, kinds, k) && k in kinds && Changeable(kinds[k])
      requires forall o :: o != k ==> ((o in values0) == (o in values)) && (o in values0 ==> values0[o] == values[o])
      requires updated !! Dependents(kinds, rank, k) && calculated !! Dependents(kinds, rank, k)
      requires forall c :: c in updated ==>
        c in referenceDates && Truth(model, g, rank0, values0, c) == Some(referenceDates[c])
      requires forall l :: l in calculated ==>
        l in results && (Sound(g, rank0, l) ==> Truth(model, g, rank0, values0, l) == Some(results[l]))
      ensures forall c :: c in updated ==>
        c in referenceDates && Truth(model, kinds, rank, values, c) == Some(referenceDates[c])
      ensures forall l :: l in calculated ==>
        l in results && (Sound(kinds, rank, l) ==> Truth(model, kinds, rank, values, l) == Some(results[l]))
    {
      hide Truth, Sound, DependsOn, Reads, Acyclic, Inputs;
      forall c | c in updated ensures Truth(model, kinds, rank, values, c) == Some(referenceDates[c]) {
        if Reads(kinds, rank, c, k) {
          CurveReads(kinds, rank, c, k);
        }
        TruthKept(model, g, rank0, values0, kinds, rank, values, k, c);
      }
      forall l | l in calculated && Sound(kinds, rank, l)
        ensures Truth(model, kinds, rank, values, l) == Some(results[l])
      {
        SoundReadsNothingElse(kinds, rank, l, k);
        SoundKept(g, rank0, kinds, rank, k, l);
        TruthKept(model, g, rank0, values0, kinds, rank, values, k, l);
      }
    }

    /** Unregisters a link from what it pointed to and registers it with what it points to now. */
    method Relink(k: Id, h: Option<Id>, registerAsObserver: bool, ghost rank': Rank)
      requires Wired() && k in kinds && kinds[k].Link?
      requires Acyclic(kinds[k := Link(h, registerAsObserver)], rank')
      modifies this`kinds, this`observers, this`rank
      ensures Wired() && kinds == old(kinds)[k := Link(h, registerAsObserver)] && rank == rank'
    {
      ghost var now := Link(h, registerAsObserver);
      TargetsKnown(kinds, rank, k, now, rank');
      ReregisteredObservers(kinds, k, now);
      hide ObserversOf, Acyclic, Inputs, Observed;
      if kinds[k].target.Some? && kinds[k].isObserver {
        var t := kinds[k].target.value;
        observers := observers[t := observers[t] - {k}];
      }
      kinds := kinds[k := Link(h, registerAsObserver)];
      if h.Some? && registerAsObserver {
        observers := observers[h.value := observers[h.value] + {k}];
      }
      rank := rank';
    }
  }

  /** Reading an object, changing any source and reading again gives the old and the new value: no cache gets in the
      way, provided that every link below the object is an observer. */
  method ReadChangeRead(market: Market, o: Id, source: Id, v: int) returns (before: Option<int>, after: Option<int>)
    requires market.Coherent() && {o, source} <= market.kinds.Keys && market.kinds[source].Source?
    requires LinksObserve(market.kinds, market.rank, o)
    modifies market
    ensures market.Coherent() && market.kinds == old(market.kinds) && market.rank == old(market.rank)
    ensures market.values == old(market.values)[source := v] && o in market.kinds
    ensures before == Truth(market.model, market.kinds, market.rank, old(market.values), o)
    ensures after == Truth(market.model, market.kinds, market.rank, market.values, o)
  {
    hide DependsOn, Acyclic, Truth, Sound, ColdClosed, ObserversOf, Reads, LinksObserve;
    market.AcyclicMarket();
    ObservingLinksAreSound(market.kinds, market.rank, o);
    before := market.Read(o);
    market.SetValue(source, v);
    after := market.Read(o);
  }

  /** A calculated object that is not notified of a value keeps returning its cached result after the value has
      changed. If the result was right, it still is when the object does not read the value; when it does and adds up
      what it reads, a larger value makes it wrong. */
  method ReadMissedChange(market: Market, source: Id, lazy: Id, v: int) returns (r: Option<int>)
    requires market.Coherent() && {source, lazy} <= market.kinds.Keys && market.kinds[source].Source?
    requires lazy in market.calculated && !DependsOn(market.kinds, market.rank, lazy, source)
    modifies market
    ensures r == Some(old(market.results[lazy]))
    ensures market.Coherent() && market.kinds == old(market.kinds) && market.rank == old(market.rank)
    ensures market.values == old(market.values)[source := v]
    ensures lazy in market.kinds
    ensures r == Truth(market.model, market.kinds, market.rank, old(market.values), lazy) ==>
      && (!Reads(market.kinds, market.rank, lazy, source) ==>
            r == Truth(market.model, market.kinds, market.rank, market.values, lazy))
      && (Reads(market.kinds, market.rank, lazy, source) && Additive(market.model)
          && v > Valued(old(market.values), source) ==>
            r != Truth(market.model, market.kinds, market.rank, market.values, lazy))
  {
    hide DependsOn, Acyclic, Truth, Sound, ColdClosed, ObserversOf, Reads, Additive, Valued;
    market.AcyclicMarket();
    market.SetValue(source, v);
    r := market.Read(lazy);
    if Additive(market.model) && v > Valued(old(market.values), source) {
      TruthRises(market.model, market.kinds, market.rank, old(market.values), source, v, lazy);
    }
    if !Reads(market.kinds, market.rank, lazy, source) {
      TruthKept(market.model, market.kinds, market.rank, old(market.values),
                market.kinds, market.rank, market.values, source, lazy);
    }
  }

  /** Why links must be registered: a lazy object that reads `source` only through an unregistered link keeps returning
      its cached result, whatever the new value. */
  method ReadThroughBackdoor(market: Market, source: Id, link: Id, lazy: Id, v: int) returns (r: Option<int>)
    requires market.Coherent() && {source, link, lazy} <= market.kinds.Keys
    requires market.kinds[source] == Source && market.kinds[link] == Link(Some(source), false)
    requires market.kinds[lazy] == Lazy([link]) && lazy in market.calculated
    modifies market
    ensures r == Some(old(market.results[lazy]))
    ensures market.Coherent() && lazy in market.kinds && link in market.kinds
    ensures Truth(market.model, market.kinds, market.rank, market.values, lazy) == Some(market.model.compute(lazy, [v]))
  {
    NotThroughBackdoor(market.kinds, market.rank, source, link, lazy);
    r := ReadMissedChange(market, source, lazy, v);
    hide Truth, DependsOn, Reads, Acyclic, Sound, ColdClosed, ObserversOf;
    TruthCases(market.model, market.kinds, market.rank, market.values, source);
    TruthCases(market.model, market.kinds, market.rank, market.values, link);
    TruthsOfOne(market.model, market.kinds, market.rank, market.values, link, lazy);
    TruthOfLazy(market.model, market.kinds, market.rank, market.values, lazy);
  }

  lemma NotThroughBackdoor(g: Graph, rank: Rank, source: Id, link: Id, lazy: Id)
    requires Acyclic(g, rank) && {source, link, lazy} <= g.Keys
    requires g[source] == Source && g[link] == Link(Some(source), false) && g[lazy] == Lazy([link])
    ensures !DependsOn(g, rank, lazy, source)
  {
    assert source in Inputs(g[link]) && link in Inputs(g[lazy]);
    assert !DependsOn(g, rank, link, source);
  }
}
