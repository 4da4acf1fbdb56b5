/** Recombining trees (ql/methods/lattices/lattice.hpp): discounted expectation backwards, state prices forwards. */
module Lattices {
  import opened RealArithmetic
  import opened TimeGrids

  /** The largest double, (2^53 - 1) * 2^971: the initial value of an asset's adjustment times. */
  function MaxReal(): real {
    9007199254740991.0 * 2048.0
    * 2135987035920910082395021706169552114602704522356652769947041607822219725780640550022962086936576.0
    * 2135987035920910082395021706169552114602704522356652769947041607822219725780640550022962086936576.0
    * 2135987035920910082395021706169552114602704522356652769947041607822219725780640550022962086936576.0
  }

  /** What an implementation of the tree supplies, by node index, state index and branch. */
  datatype Tree = Tree(
    times: seq<Time>,
    branches: nat,
    size: nat -> nat,
    discount: (nat, nat) -> real,
    descendant: (nat, nat, nat) -> nat,
    probability: (nat, nat, nat) -> real)
  {
    ghost predicate Valid() {
      && |times| > 0 && times[0] == 0.0 && Increasing(times) && PairwiseApart(times)
      && times[|times| - 1] < MaxReal() / 2.0
      && size(0) == 1
      && forall i: nat, j: nat, l: nat :: i + 1 < |times| && j < size(i) && l < branches ==>
          descendant(i, j, l) < size(i + 1)
    }

    /** A binomial tree with the same weights and the same discount factor everywhere. */
    ghost predicate Homogeneous() {
      && branches == 2
      && (forall i: nat, j: nat, l: nat :: l < 2 ==>
            descendant(i, j, l) == j + l && probability(i, j, l) == probability(0, 0, l))
      && (forall i: nat, j: nat :: discount(i, j) == discount(0, 0))
    }

    /** Branch weights and discount factors that a market model supplies. */
    ghost predicate NonNegativeWeights() {
      && (forall i: nat, j: nat :: discount(i, j) >= 0.0)
      && (forall i: nat, j: nat, l: nat :: probability(i, j, l) >= 0.0)
    }
  }

  function Zeros(n: nat): (z: seq<real>)
    ensures |z| == n && forall k :: 0 <= k < n ==> z[k] == 0.0
  {
    seq(n, _ => 0.0)
  }

  /** Expectation over the first `l` branches of a state. */
  ghost function Expectation(tree: Tree, i: nat, j: nat, values: seq<real>, l: nat): real
    requires tree.Valid() && i + 1 < |tree.times| && j < tree.size(i) && l <= tree.branches
    requires |values| == tree.size(i + 1)
  {
    if l == 0 then 0.0
    else
      Expectation(tree, i, j, values, l - 1)
      + Times(tree.probability(i, j, l - 1), values[tree.descendant(i, j, l - 1)])
  }

  /** Values one node earlier: discounted expectation over the branches of each state. */
  ghost function StepBack(tree: Tree, i: nat, values: seq<real>): (newValues: seq<real>)
    requires tree.Valid() && i + 1 < |tree.times| && |values| == tree.size(i + 1)
    ensures |newValues| == tree.size(i)
  {
    seq(tree.size(i), (j: int) requires 0 <= j < tree.size(i) =>
                        Times(Expectation(tree, i, j, values, tree.branches), tree.discount(i, j)))
  }

  /** A tree on which node i has i + 1 states and each of them goes to the one of the same number or to the next one,
      everywhere with the same weights. */
  function Binomial(times: seq<Time>, down: real, up: real, discount: real): Tree {
    Tree(times, 2, (i: nat) => i + 1, (_, _) => discount, (_, j: nat, l: nat) => j + l,
         (_, _, l: nat) => if l == 1 then up else down)
  }

  /** The lattices of the Black-Scholes model are of this kind. */
  lemma BinomialIsHomogeneous(times: seq<Time>, down: real, up: real, discount: real)
    requires |times| > 0 && times[0] == 0.0 && Increasing(times) && PairwiseApart(times)
    requires times[|times| - 1] < MaxReal() / 2.0
    ensures var tree := Binomial(times, down, up, discount);
      && tree.Valid() && tree.Homogeneous()
      && (tree.NonNegativeWeights() <==> down >= 0.0 && up >= 0.0 && discount >= 0.0)
  {
    hide Increasing, PairwiseApart, MaxReal;
    var tree := Binomial(times, down, up, discount);
    assert tree.probability(0, 0, 0) == down && tree.probability(0, 0, 1) == up && tree.discount(0, 0) == discount;
  }

  /** On a homogeneous binomial tree a state is worth the weighted values of the two states above it. */
  lemma HomogeneousStepBack(tree: Tree, i: nat, values: seq<real>, j: nat)
    requires tree.Valid() && tree.Homogeneous()
    requires i + 1 < |tree.times| && |values| == tree.size(i + 1) && j < tree.size(i)
    ensures j + 1 < |values|
    ensures StepBack(tree, i, values)[j]
         == Times(Times(tree.probability(0, 0, 0), values[j]) + Times(tree.probability(0, 0, 1), values[j + 1]),
                  tree.discount(0, 0))
  {
    hide Times;
    assert tree.descendant(i, j, 0) == j && tree.descendant(i, j, 1) == j + 1;
    assert Expectation(tree, i, j, values, 1) == Times(tree.probability(0, 0, 0), values[j]);
  }

  /** Pointwise order on value vectors. */
  predicate Below(u: seq<real>, v: seq<real>) {
    |u| == |v| && forall k :: 0 <= k < |u| ==> u[k] <= v[k]
  }

  lemma {:induction false} ExpectationMonotone(tree: Tree, i: nat, j: nat, u: seq<real>, v: seq<real>, l: nat)
    requires tree.Valid() && tree.NonNegativeWeights()
    requires i + 1 < |tree.times| && j < tree.size(i) && l <= tree.branches
    requires |u| == tree.size(i + 1) && Below(u, v)
    ensures Expectation(tree, i, j, u, l) <= Expectation(tree, i, j, v, l)
  {
    if l > 0 {
      ExpectationMonotone(tree, i, j, u, v, l - 1);
      var p, d := tree.probability(i, j, l - 1), tree.descendant(i, j, l - 1);
      TimesMonotone(u[d], v[d], p);
    }
  }

  /** Non-negative weights make the step back monotone. */
  lemma StepBackMonotone(tree: Tree, i: nat, u: seq<real>, v: seq<real>)
    requires tree.Valid() && tree.NonNegativeWeights()
    requires i + 1 < |tree.times| && |u| == tree.size(i + 1) && Below(u, v)
    ensures Below(StepBack(tree, i, u), StepBack(tree, i, v))
  {
    forall j | 0 <= j < tree.size(i) ensures StepBack(tree, i, u)[j] <= StepBack(tree, i, v)[j] {
      ExpectationMonotone(tree, i, j, u, v, tree.branches);
      TimesMonotone(Expectation(tree, i, j, u, tree.branches), Expectation(tree, i, j, v, tree.branches),
                    tree.discount(i, j));
    }
  }

  // ----- state prices -----

  /** Sum of products over the first `n` positions. */
  function Dot(u: seq<real>, v: seq<real>, n: nat): real
    requires n <= |u| && n <= |v|
  {
    if n == 0 then 0.0 else Dot(u, v, n - 1) + Times(u[n - 1], v[n - 1])
  }

  function AddAt(q: seq<real>, d: nat, a: real): (r: seq<real>)
    requires d < |q|
  {
    q[d := q[d] + a]
  }

  /** Adds the contributions of the first `l` branches of state `j`, worth `x` today, to the next state prices. */
  ghost function ScatterBranches(tree: Tree, i: nat, j: nat, x: real, prices: seq<real>, l: nat): (r: seq<real>)
    requires tree.Valid() && i + 1 < |tree.times| && j < tree.size(i) && l <= tree.branches
    requires |prices| == tree.size(i + 1)
    ensures |r| == |prices|
  {
    if l == 0 then prices
    else
      AddAt(ScatterBranches(tree, i, j, x, prices, l - 1),
            tree.descendant(i, j, l - 1), Times(x, tree.probability(i, j, l - 1)))
  }

  /** Contributions of the first `j` states with prices `q` to the state prices of the next node. */
  ghost function ScatterStates(tree: Tree, i: nat, q: seq<real>, j: nat): (r: seq<real>)
    requires tree.Valid() && i + 1 < |tree.times| && |q| == tree.size(i) && j <= |q|
    ensures |r| == tree.size(i + 1)
  {
    if j == 0 then Zeros(tree.size(i + 1))
    else
      ScatterBranches(tree, i, j - 1, Times(q[j - 1], tree.discount(i, j - 1)),
                      ScatterStates(tree, i, q, j - 1), tree.branches)
  }

  ghost function StatePrices(tree: Tree, i: nat): (q: seq<real>)
    requires tree.Valid() && i < |tree.times|
    ensures |q| == tree.size(i)
  {
    if i == 0 then [1.0]
    else ScatterStates(tree, i - 1, StatePrices(tree, i - 1), tree.size(i - 1))
  }

  lemma StatePricesNext(tree: Tree, i: nat)
    requires tree.Valid() && i + 1 < |tree.times|
    ensures StatePrices(tree, i + 1) == ScatterStates(tree, i, StatePrices(tree, i), tree.size(i))
  {
  }

  lemma {:induction false} DotUpdate(v: seq<real>, q: seq<real>, d: nat, a: real, n: nat)
    requires n <= |v| == |q| && d < |q|
    ensures Dot(v, AddAt(q, d, a), n) == Dot(v, q, n) + if d < n then Times(v[d], a) else 0.0
  {
    if n > 0 {
      DotUpdate(v, q, d, a, n - 1);
      assert v[n - 1] * (q[n - 1] + a) == v[n - 1] * q[n - 1] + v[n - 1] * a;
    }
  }

  lemma {:induction false} ScatterBranchesDot(tree: Tree, i: nat, j: nat, x: real, prices: seq<real>, v: seq<real>,
                                              l: nat)
    requires tree.Valid() && i + 1 < |tree.times| && j < tree.size(i) && l <= tree.branches
    requires |prices| == |v| == tree.size(i + 1)
    ensures Dot(v, ScatterBranches(tree, i, j, x, prices, l), |v|)
         == Dot(v, prices, |v|) + Times(x, Expectation(tree, i, j, v, l))
  {
    if l > 0 {
      ScatterBranchesLast(tree, i, j, x, prices, v, l);
      hide *;
      ScatterBranchesDot(tree, i, j, x, prices, v, l - 1);
      var r := ScatterBranches(tree, i, j, x, prices, l - 1);
      var p, d := tree.probability(i, j, l - 1), tree.descendant(i, j, l - 1);
      DotUpdate(v, r, d, Times(x, p), |v|);
      var e := Expectation(tree, i, j, v, l - 1);
      Distribute(x, e, p, v[d]);
    }
  }

  lemma ScatterBranchesLast(tree: Tree, i: nat, j: nat, x: real, prices: seq<real>, v: seq<real>, l: nat)
    requires tree.Valid() && i + 1 < |tree.times| && j < tree.size(i) && 0 < l <= tree.branches
    requires |prices| == |v| == tree.size(i + 1)
    ensures var p, d := tree.probability(i, j, l - 1), tree.descendant(i, j, l - 1);
      && d < |v|
      && ScatterBranches(tree, i, j, x, prices, l)
         == AddAt(ScatterBranches(tree, i, j, x, prices, l - 1), d, Times(x, p))
      && Expectation(tree, i, j, v, l) == Expectation(tree, i, j, v, l - 1) + Times(p, v[d])
  {
  }

  lemma Distribute(x: real, e: real, p: real, v: real)
    ensures Times(x, e + Times(p, v)) == Times(x, e) + Times(v, Times(x, p))
    ensures Times(x, 0.0) == 0.0
  {
  }

  lemma DotLast(u: seq<real>, v: seq<real>, n: nat, a: real, b: real, c: real)
    requires 0 < n && n <= |u| && n <= |v|
    requires u[n - 1] == Times(a, b) && v[n - 1] == c
    ensures Dot(u, v, n) == Dot(u, v, n - 1) + Times(Times(c, b), a)
  {
    assert a * b * c == c * b * a;
  }

  lemma StepBackAt(tree: Tree, i: nat, v: seq<real>, j: nat)
    requires tree.Valid() && i + 1 < |tree.times| && |v| == tree.size(i + 1) && j < tree.size(i)
    ensures StepBack(tree, i, v)[j] == Times(Expectation(tree, i, j, v, tree.branches), tree.discount(i, j))
  {
  }

  lemma {:induction false} ZerosDot(v: seq<real>, n: nat)
    requires n <= |v|
    ensures Dot(v, Zeros(|v|), n) == 0.0
  {
    if n > 0 {
      ZerosDot(v, n - 1);
    }
  }

  lemma ScatterStatesLast(tree: Tree, i: nat, q: seq<real>, j: nat)
    requires tree.Valid() && i + 1 < |tree.times| && |q| == tree.size(i) && 0 < j <= |q|
    ensures ScatterStates(tree, i, q, j) == ScatterBranches(tree, i, j - 1, Times(q[j - 1], tree.discount(i, j - 1)),
                                                            ScatterStates(tree, i, q, j - 1), tree.branches)
  {
  }

  lemma {:induction false} ScatterStatesDot(tree: Tree, i: nat, q: seq<real>, v: seq<real>, j: nat)
    requires tree.Valid() && i + 1 < |tree.times| && |q| == tree.size(i) && j <= |q|
    requires |v| == tree.size(i + 1)
    ensures Dot(v, ScatterStates(tree, i, q, j), |v|) == Dot(StepBack(tree, i, v), q, j)
  {
    if j == 0 {
      ZerosDot(v, |v|);
      assert ScatterStates(tree, i, q, 0) == Zeros(|v|);
    } else {
      hide *;
      ScatterStatesDot(tree, i, q, v, j - 1);
      ScatterStatesLast(tree, i, q, j);
      StepBackAt(tree, i, v, j - 1);
      var e, disc, x := Expectation(tree, i, j - 1, v, tree.branches), tree.discount(i, j - 1), q[j - 1];
      ScatterBranchesDot(tree, i, j - 1, Times(x, disc), ScatterStates(tree, i, q, j - 1), v, tree.branches);
      DotLast(StepBack(tree, i, v), q, j, e, disc, x);
    }
  }

  /** Rolling values back one node and pricing them there is pricing them where they are:
      the forward recursion is the adjoint of the backward one. */
  lemma StepBackDuality(tree: Tree, i: nat, v: seq<real>)
    requires tree.Valid() && i + 1 < |tree.times| && |v| == tree.size(i + 1)
    ensures Dot(StepBack(tree, i, v), StatePrices(tree, i), tree.size(i))
         == Dot(v, StatePrices(tree, i + 1), tree.size(i + 1))
  {
    ScatterStatesDot(tree, i, StatePrices(tree, i), v, tree.size(i));
  }

  /** Values rolled back from node `i` to node `j` without adjustments. */
  ghost function RolledBack(tree: Tree, i: nat, v: seq<real>, j: nat): (r: seq<real>)
    requires tree.Valid() && j <= i < |tree.times| && |v| == tree.size(i)
    ensures |r| == tree.size(j)
    decreases i - j
  {
    if i == j then v else StepBack(tree, j, RolledBack(tree, i, v, j + 1))
  }

  lemma {:induction false} RollbackKeepsPresentValue(tree: Tree, i: nat, v: seq<real>, j: nat)
    requires tree.Valid() && j <= i < |tree.times| && |v| == tree.size(i)
    ensures Dot(v, StatePrices(tree, i), |v|) == Dot(RolledBack(tree, i, v, j), StatePrices(tree, j), tree.size(j))
    decreases i - j
  {
    if j < i {
      RollbackKeepsPresentValue(tree, i, v, j + 1);
      StepBackDuality(tree, j, RolledBack(tree, i, v, j + 1));
    }
  }

  /** The present value computed from state prices is the value rolled back to the root. */
  lemma PresentValueIsRootValue(tree: Tree, i: nat, v: seq<real>)
    requires tree.Valid() && i < |tree.times| && |v| == tree.size(i)
    ensures Dot(v, StatePrices(tree, i), |v|) == RolledBack(tree, i, v, 0)[0]
  {
    RollbackKeepsPresentValue(tree, i, v, 0);
    var r := RolledBack(tree, i, v, 0);
    assert Dot(r, [1.0], 1) == Dot(r, [1.0], 0) + Times(r[0], 1.0);
  }
}
