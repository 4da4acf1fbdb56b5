/** Discretized assets and the tree lattice that rolls them back in place
    (ql/discretizedasset.hpp, ql/discretizedasset.cpp, ql/methods/lattices/lattice.hpp). */
module DiscretizedAssets {
  import opened Comparison
  import opened RealArithmetic
  import opened Results
  import opened TimeGrids
  import opened Lattices
  import opened Processes

  datatype LatticeError =
    | InadequateGrid(error: IndexError)
    | AlreadyEarlier(time: Time)
    | DifferentMethods
    | ExerciseTimeNotOnGrid

  datatype Kind =
    | DiscountBond
    | CashFlowAsset(initial: nat -> seq<real>, pre: (Time, seq<real>) -> seq<real>,
                    post: (Time, seq<real>) -> seq<real>, times: seq<Time>)
    | Option(underlying: DiscretizedAsset, exerciseType: ExerciseType, exerciseTimes: seq<Time>)

  /** One adjustment that an asset has made since it was initialised. */
  datatype Adjustment = Pre(node: nat) | Post(node: nat)

  /** A pre- and a post-adjustment at every node from `start` down to the one after `node`, in this order. */
  function AdjustmentsBefore(start: nat, node: nat): seq<Adjustment>
    decreases start - node
  {
    if start <= node then [] else AdjustmentsBefore(start, node + 1) + [Pre(node + 1), Post(node + 1)]
  }

  lemma {:induction false} AdjustmentsInOrder(start: nat, node: nat)
    requires node <= start
    ensures var s := AdjustmentsBefore(start, node) + [Pre(node), Post(node)];
      |s| == 2 * (start - node + 1)
      && forall i :: 0 <= i <= start - node ==> s[2 * i] == Pre(start - i) && s[2 * i + 1] == Post(start - i)
    decreases start - node
  {
    if node < start {
      AdjustmentsInOrder(start, node + 1);
    }
  }

  function AdjustmentsAt(node: nat, pre: bool, post: bool): seq<Adjustment> {
    (if pre then [Pre(node)] else []) + (if post then [Post(node)] else [])
  }

  lemma FarFromSentinel(t: Time, sentinel: Time)
    requires 0.0 <= t < sentinel / 2.0 && sentinel >= 1.0
    ensures !CloseEnough(t, sentinel)
  {
  }

  /** A sorted schedule can be looked up exactly when its non-negative times can. */
  lemma ScheduleLookedUp(times: seq<Time>, schedule: seq<Time>)
    requires |times| > 0 && Increasing(times) && Ascending(schedule)
    ensures ExerciseOnGrid(times, Bermudan, schedule)
       <==> forall t :: t in FromFirstNonNegative(schedule) ==> Index(times, t).Success?
  {
    NegativesDropped(schedule);
    hide Index, FromFirstNonNegative;
    assert forall t :: t in schedule && t >= 0.0 <==> t in FromFirstNonNegative(schedule);
  }

  lemma NonNegativeTimes(schedule: seq<Time>, t: Time)
    requires Ascending(schedule)
    ensures t in FromFirstNonNegative(schedule) <==> t in schedule && t >= 0.0
  {
    NegativesDropped(schedule);
  }

  /** Every time that a calendar can produce is below the sentinel. */
  lemma OrdinaryTimesBelowSentinel(t: Time)
    requires t <= 1000000000000000000000000000000.0
    ensures t < MaxReal() / 2.0 && !CloseEnough(t, MaxReal())
  {
  }

  class TreeLattice {
    const tree: Tree
    var statePrices: seq<seq<real>>
    var statePricesLimit: nat

    ghost predicate Valid()
      reads this
    {
      && tree.Valid()
      && statePricesLimit < |tree.times|
      && |statePrices| == statePricesLimit + 1
      && forall k :: 0 <= k <= statePricesLimit ==> statePrices[k] == StatePrices(tree, k)
    }

    constructor (tree: Tree)
      requires tree.Valid()
      ensures Valid() && this.tree == tree
    {
      this.tree := tree;
      statePrices := [[1.0]];
      statePricesLimit := 0;
    }

    /** Extends the state prices up to node `until`. */
    method ComputeStatePrices(until: nat)
      requires Valid() && statePricesLimit <= until < |tree.times|
      modifies this
      ensures Valid() && statePricesLimit == until
      ensures statePrices[..old(statePricesLimit) + 1] == old(statePrices)
    {
      hide StatePrices, ScatterStates, Tree.Valid;
      for i := statePricesLimit to until
        invariant statePricesLimit == old(statePricesLimit)
        invariant |statePrices| == i + 1
        invariant forall k :: 0 <= k <= i ==> statePrices[k] == StatePrices(tree, k)
        invariant statePrices[..old(statePricesLimit) + 1] == old(statePrices)
      {
        StatePricesNext(tree, i);
        var next := NextStatePrices(i, statePrices[i]);
        statePrices := statePrices + [next];
      }
      statePricesLimit := until;
    }

    /** One round of the outer loop: every state spreads its price over its branches. */
    method NextStatePrices(i: nat, q: seq<real>) returns (next: seq<real>)
      requires tree.Valid() && i + 1 < |tree.times| && |q| == tree.size(i)
      ensures next == ScatterStates(tree, i, q, tree.size(i))
    {
      next := Zeros(tree.size(i + 1));
      for j := 0 to tree.size(i)
        invariant next == ScatterStates(tree, i, q, j)
      {
        var x := Times(q[j], tree.discount(i, j));
        ghost var before := next;
        for l := 0 to tree.branches
          invariant next == ScatterBranches(tree, i, j, x, before, l)
        {
          next := AddAt(next, tree.descendant(i, j, l), Times(x, tree.probability(i, j, l)));
        }
      }
    }

    method StatePricesAt(i: nat) returns (q: seq<real>)
      requires Valid() && i < |tree.times|
      modifies this
      ensures Valid() && q == StatePrices(tree, i)
    {
      if i > statePricesLimit {
        ComputeStatePrices(i);
      }
      q := statePrices[i];
    }

    method StepBackValues(i: nat, values: seq<real>) returns (newValues: seq<real>)
      requires tree.Valid() && i + 1 < |tree.times| && |values| == tree.size(i + 1)
      ensures newValues == StepBack(tree, i, values)
    {
      newValues := [];
      for j := 0 to tree.size(i)
        invariant newValues == StepBack(tree, i, values)[..j]
      {
        var value := 0.0;
        for l := 0 to tree.branches
          invariant value == Expectation(tree, i, j, values, l)
        {
          value := value + Times(tree.probability(i, j, l), values[tree.descendant(i, j, l)]);
        }
        newValues := newValues + [Times(value, tree.discount(i, j))];
      }
    }

    /** The Black-Scholes lattice steps back without looking up weights or descendants. */
    method StepBackHomogeneous(i: nat, values: seq<real>) returns (newValues: seq<real>)
      requires tree.Valid() && tree.Homogeneous() && i + 1 < |tree.times| && |values| == tree.size(i + 1)
      ensures newValues == StepBack(tree, i, values)
    {
      hide StepBack, Expectation, Times, Tree.Valid, Tree.Homogeneous;
      var pd, pu, discount := tree.probability(0, 0, 0), tree.probability(0, 0, 1), tree.discount(0, 0);
      ghost var result := StepBack(tree, i, values);
      newValues := [];
      for j := 0 to tree.size(i)
        invariant newValues == result[..j]
      {
        HomogeneousStepBack(tree, i, values, j);
        newValues := newValues + [Times(Times(pd, values[j]) + Times(pu, values[j + 1]), discount)];
      }
    }

    method PresentValue(asset: DiscretizedAsset) returns (value: real)
      requires Valid() && asset.Linked() && asset.Valid() && asset.lattice == this
      modifies this
      ensures Valid()
      ensures value == Dot(asset.values, StatePrices(tree, asset.node), tree.size(asset.node))
    {
      hide DiscretizedAsset.Valid, StatePrices, Index, PairwiseApart, WellFormed;
      asset.Position();
      IndexOfNode(tree.times, asset.node);
      var i := Index(tree.times, asset.time).value;
      var q := StatePricesAt(i);
      value := 0.0;
      for k := 0 to |asset.values|
        invariant value == Dot(asset.values, q, k)
      {
        value := value + Times(asset.values[k], q[k]);
      }
    }

    /** The node that a rollback to time `to` reaches from node `from`. */
    function Target(from: nat, to: Time): (r: Result<nat, LatticeError>)
      requires tree.Valid() && from < |tree.times|
      ensures r.Success? ==> r.value <= from
    {
      if Close(tree.times[from], to) then Success(from)
      else if tree.times[from] <= to then Failure(AlreadyEarlier(tree.times[from]))
      else
        match Index(tree.times, to)
        case Failure(e) => Failure(InadequateGrid(e))
        case Success(i) =>
          assert i <= from by {
            assert Abs(tree.times[ClosestIndex(tree.times, to)] - to) <= Abs(tree.times[from] - to);
          }
          Success(i)
    }

    lemma TargetCases(from: nat, to: Time)
      requires tree.Valid() && from < |tree.times|
      ensures Increasing(tree.times)
      ensures var t := tree.times[from];
        if Close(t, to) then Target(from, to) == Success(from)
        else if t <= to then Target(from, to) == Failure(AlreadyEarlier(t))
        else if Index(tree.times, to).Failure? then
          Target(from, to) == Failure(InadequateGrid(Index(tree.times, to).error))
        else Target(from, to) == Success(Index(tree.times, to).value)
    {
    }

    /** A node at or before the asset's own is reached exactly. */
    lemma TargetOfNode(from: nat, i: nat)
      requires tree.Valid() && i <= from < |tree.times|
      ensures Target(from, tree.times[i]) == Success(i)
    {
      IndexOfNode(tree.times, i);
      if i < from && Close(tree.times[from], tree.times[i]) {
        CloseIsCloseEnough(tree.times[from], tree.times[i]);
        Symmetric(tree.times[from], tree.times[i]);
      }
    }

    /** Rolls an asset back, adjusting it at every node on the way but not at the last one. */
    method PartialRollback(asset: DiscretizedAsset, to: Time) returns (r: Result<nat, LatticeError>)
      requires tree.Valid() && asset.Linked() && asset.Valid() && asset.lattice == this && asset.Settled()
      modifies asset.Repr
      ensures asset.Valid() && asset.lattice == this && asset.Proc() == old(asset.Proc())
      ensures r == Target(old(asset.node), to)
      ensures asset.node == if r.Success? then r.value else old(asset.node)
      ensures if asset.node == old(asset.node)
              then asset.Settled() && asset.values == old(asset.values)
              else asset.Entered()
      decreases asset.depth, 3, 1
    {
      hide *;
      asset.Position();
      TargetCases(asset.node, to);
      var times := tree.times;
      var from := asset.time;
      IndexOfNode(times, asset.node);
      var iFrom := Index(times, from).value;
      if Close(from, to) {
        return Success(iFrom);
      }
      if from <= to {
        return Failure(AlreadyEarlier(from));
      }
      var target := Index(times, to);
      if target.Failure? {
        return Failure(InadequateGrid(target.error));
      }
      var iTo := target.value;
      RollToNode(asset, iFrom, iTo);
      return Success(iTo);
    }

    /** The loop over the nodes between two indices. */
    method RollToNode(asset: DiscretizedAsset, iFrom: nat, iTo: nat)
      requires tree.Valid() && asset.Linked() && asset.Valid() && asset.lattice == this && asset.Settled()
      requires asset.node == iFrom && iTo <= iFrom
      modifies asset.Repr
      ensures asset.Valid() && asset.lattice == this && asset.Proc() == old(asset.Proc())
      ensures asset.node == iTo
      ensures if iTo == iFrom then asset.Settled() && asset.values == old(asset.values) else asset.Entered()
      decreases asset.depth, 3, 0
    {
      hide *;
      for i := iFrom downto iTo
        invariant asset.Valid() && asset.lattice == this && asset.Proc() == old(asset.Proc())
        invariant asset.node == i
        invariant i == iFrom ==> asset.values == old(asset.values)
        invariant if i == iFrom || i > iTo then asset.Settled() else asset.Entered()
      {
        asset.Position();
        var newValues := StepBackValues(i, asset.values);
        asset.MoveTo(i, newValues);
        if i != iTo {
          asset.AdjustValues();
        }
      }
    }

    /** Rolls an asset back, adjusting it at every node including the last one. */
    method Rollback(asset: DiscretizedAsset, to: Time) returns (r: Result<nat, LatticeError>)
      requires tree.Valid() && asset.Linked() && asset.Valid() && asset.lattice == this && asset.Settled()
      modifies asset.Repr
      ensures asset.Valid() && asset.lattice == this && asset.Proc() == old(asset.Proc())
      ensures r == Target(old(asset.node), to)
      ensures r.Success? ==> asset.node == r.value && asset.values == PostAdjusted(tree, asset.Proc(), r.value)
      ensures r.Failure? ==> asset.node == old(asset.node) && asset.values == old(asset.values)
      ensures asset.Settled()
    {
      r := PartialRollback(asset, to);
      if r.Success? {
        asset.AdjustValues();
      }
    }
  }

  class DiscretizedAsset {
    const kind: Kind
    var time: Time
    var latestPreAdjustment: Time
    var latestPostAdjustment: Time
    var values: seq<real>
    var lattice: TreeLattice?

    // where the asset was initialised, where it is now, whether the underlying was already adjusted then,
    // and the adjustments made since
    ghost var start: nat
    ghost var node: nat
    ghost var underlyingAdjusted: bool
    ghost var adjustments: seq<Adjustment>
    ghost const Repr: set<DiscretizedAsset>
    ghost const depth: nat

    constructor (kind: Kind)
      requires kind.Option? ==> kind.underlying.Linked()
      ensures Linked() && Fresh() && this.kind == kind && lattice == null
    {
      this.kind := kind;
      time, values, lattice := 0.0, [], null;
      latestPreAdjustment, latestPostAdjustment := MaxReal(), MaxReal();
      start, node, underlyingAdjusted, adjustments := 0, 0, false, [];
      Repr := if kind.Option? then {this} + kind.underlying.Repr else {this};
      depth := if kind.Option? then kind.underlying.depth + 1 else 0;
    }

    /** An asset and the assets below it form a chain. */
    ghost predicate Linked()
      decreases depth
    {
      if kind.Option? then
        var u := kind.underlying;
        depth == u.depth + 1 && Repr == {this} + u.Repr && this !in u.Repr && u.Linked()
      else
        depth == 0 && Repr == {this}
    }

    ghost predicate Fresh()
      reads this
    {
      latestPreAdjustment == latestPostAdjustment == MaxReal()
    }

    ghost function Proc(): Process
      requires Linked()
      reads Repr`start, Repr`underlyingAdjusted
      decreases depth
    {
      match kind
      case DiscountBond => Bond(start)
      case CashFlowAsset(initial, pre, post, _) => CashFlows(start, initial, pre, post)
      case Option(u, exerciseType, exerciseTimes) =>
        OptionOn(start, u.Proc(), underlyingAdjusted, exerciseType, exerciseTimes)
    }

    /** An adjustment time is the sentinel or a node not yet left behind. */
    ghost predicate GuardAt(times: seq<Time>, g: Time)
      reads this
    {
      g == MaxReal() || exists k :: node <= k < |times| && g == times[k]
    }

    ghost predicate Valid()
      requires Linked()
      reads Repr
      decreases depth
    {
      && lattice != null
      && var tree := lattice.tree;
      && tree.Valid() && WellFormed(tree, Proc())
      && node <= start && time == tree.times[node]
      && GuardAt(tree.times, latestPreAdjustment) && GuardAt(tree.times, latestPostAdjustment)
      && (latestPostAdjustment == time ==> latestPreAdjustment == time)
      && values == (if latestPostAdjustment == time then PostAdjusted(tree, Proc(), node)
                    else if latestPreAdjustment == time then PreAdjusted(tree, Proc(), node)
                    else Entering(tree, Proc(), node))
      && (!kind.DiscountBond? ==>
            adjustments == AdjustmentsBefore(start, node)
                           + AdjustmentsAt(node, latestPreAdjustment == time, latestPostAdjustment == time))
      && (kind.Option? ==>
            var u := kind.underlying;
            && u.Valid() && u.lattice == lattice && u.Settled() && node <= u.node
            && (latestPostAdjustment == time ==> u.node == node)
            && (latestPostAdjustment != time ==>
                  if node < start then u.node == node + 1
                  else underlyingAdjusted == (u.node == node && !u.kind.DiscountBond?)))
    }

    /** Ready to be rolled further: adjusted at its node, or in no need of adjustment. */
    ghost predicate Settled()
      reads this
    {
      kind.DiscountBond? || latestPostAdjustment == time
    }

    /** Rolled to its node and not adjusted there. */
    ghost predicate Entered()
      reads this
    {
      latestPreAdjustment != time && latestPostAdjustment != time
    }

    /** Among grid nodes and the sentinel, close means equal. */
    lemma GuardIsExact(g: Time)
      requires Linked() && Valid() && GuardAt(lattice.tree.times, g)
      ensures CloseEnough(time, g) <==> time == g
    {
      var times := lattice.tree.times;
      assert 0.0 <= time <= times[|times| - 1];
      if g == MaxReal() {
        FarFromSentinel(time, MaxReal());
      }
    }

    lemma Position()
      requires Linked() && Valid()
      ensures lattice != null && lattice.tree.Valid() && WellFormed(lattice.tree, Proc())
      ensures node <= start < |lattice.tree.times| && time == lattice.tree.times[node]
      ensures Proc().start == start && this in Repr
      ensures |values| == lattice.tree.size(node)
    {
    }

    /** What the adjustments made so far have left in `values`. */
    lemma PhaseValues()
      requires Linked() && Valid()
      ensures latestPreAdjustment != time ==> Entered() && values == Entering(lattice.tree, Proc(), node)
      ensures latestPreAdjustment == time && latestPostAdjustment != time ==>
        values == PreAdjusted(lattice.tree, Proc(), node)
      ensures Settled() ==> values == PostAdjusted(lattice.tree, Proc(), node)
      ensures Settled() ==> kind.DiscountBond? || latestPreAdjustment == latestPostAdjustment == time
      ensures Entered() ==> latestPreAdjustment != time && latestPostAdjustment != time
      ensures latestPostAdjustment == time ==> latestPreAdjustment == time
    {
      if kind.DiscountBond? {
        BondNeedsNoAdjustment(lattice.tree, Proc(), node);
      }
    }

    lemma Kinds()
      requires Linked()
      ensures Proc().Bond? <==> kind.DiscountBond?
      ensures Proc().OptionOn? <==> kind.Option?
    {
    }

    /** How an option is coupled to its underlying before its own post-adjustment. */
    lemma Coupling()
      requires Linked() && Valid() && kind.Option?
      ensures var u := kind.underlying;
        && u.Linked() && u.Valid() && u.lattice == lattice && u.Settled() && node <= u.node
        && this !in u.Repr && u.Repr <= Repr && u != this
        && Proc().OptionOn? && Proc().underlying == u.Proc() && Proc().underlyingAdjusted == underlyingAdjusted
        && Proc().exerciseType == kind.exerciseType && Proc().exerciseTimes == kind.exerciseTimes
      ensures latestPostAdjustment != time ==>
        if node < start then kind.underlying.node == node + 1
        else underlyingAdjusted == (kind.underlying.node == node && !kind.underlying.kind.DiscountBond?)
    {
    }

    /** Outside discount bonds, which have nothing to adjust, both adjustments have run exactly once at every node
        left behind, and at the asset's own node as far as its adjustment times say. */
    lemma AdjustedOncePerNode()
      requires Linked() && Valid() && Settled() && !kind.DiscountBond?
      ensures adjustments == AdjustmentsBefore(start, node) + [Pre(node), Post(node)]
      ensures |adjustments| == 2 * (start - node + 1)
      ensures forall i :: 0 <= i <= start - node ==>
        adjustments[2 * i] == Pre(start - i) && adjustments[2 * i + 1] == Post(start - i)
      ensures kind.Option? ==> kind.underlying.node == node && kind.underlying.time == time
    {
      AdjustmentsInOrder(start, node);
    }

    /** The lattice stores the values stepped back to an earlier node. */
    method MoveTo(i: nat, newValues: seq<real>)
      requires Linked() && Valid() && Settled() && i + 1 == node
      requires newValues == StepBack(lattice.tree, i, values)
      modifies this`time, this`values, this`node
      ensures Valid() && Entered() && node == i && Proc() == old(Proc())
    {
      hide PostAdjusted, PreAdjusted, Entering, StepBack, WellFormed, CloseEnough, PairwiseApart;
      Position();
      PhaseValues();
      EnteringStep(lattice.tree, Proc(), i);
      FarFromSentinel(lattice.tree.times[i], MaxReal());
      time := lattice.tree.times[i];
      values := newValues;
      node := i;
    }

    /** Pre-adjustment, at most once per node. */
    method PreAdjustValues()
      requires Linked() && Valid()
      modifies this`values, this`latestPreAdjustment, this`adjustments
      ensures Valid() && Proc() == old(Proc()) && latestPreAdjustment == time
      ensures old(latestPreAdjustment) == time ==> values == old(values)
    {
      hide CloseEnough, PreAdjusted, PostAdjusted, Entering, WellFormed, Tree.Valid;
      Position();
      GuardIsExact(latestPreAdjustment);
      PreAdjustedStep(lattice.tree, Proc(), node);
      if !CloseEnough(time, latestPreAdjustment) {
        PreAdjustValuesImpl();
        adjustments := adjustments + [Pre(node)];
        latestPreAdjustment := time;
      }
    }

    method PreAdjustValuesImpl()
      modifies this`values
      ensures values == if kind.CashFlowAsset? then kind.pre(time, old(values)) else old(values)
    {
      match kind
      case CashFlowAsset(_, pre, _, _) => values := pre(time, values);
      case _ =>
    }

    /** Post-adjustment, at most once per node. */
    method PostAdjustValues()
      requires Linked() && Valid() && latestPreAdjustment == time
      modifies Repr
      ensures Valid() && Proc() == old(Proc()) && latestPostAdjustment == time && Settled()
      ensures node == old(node) && lattice == old(lattice)
      ensures old(latestPostAdjustment) == time ==> values == old(values)
      decreases depth, 1
    {
      hide CloseEnough, PreAdjusted, PostAdjusted, Entering, WellFormed, Tree.Valid, MaxReal, TreeLattice.Target;
      hide ExerciseOnGrid, Exercisable, Index;
      Position();
      GuardIsExact(latestPostAdjustment);
      PostAdjustedStep(lattice.tree, Proc(), node);
      if !CloseEnough(time, latestPostAdjustment) {
        match kind {
          case DiscountBond =>
          case CashFlowAsset(_, _, post, _) => values := post(time, values);
          case Option(_, _, _) => ExerciseOption();
        }
        adjustments := adjustments + [Post(node)];
        latestPostAdjustment := time;
      }
    }

    method AdjustValues()
      requires Linked() && Valid()
      modifies Repr
      ensures Valid() && Proc() == old(Proc()) && latestPostAdjustment == time && Settled()
      ensures node == old(node) && lattice == old(lattice)
      ensures old(latestPostAdjustment) == time ==> values == old(values)
      decreases depth, 2
    {
      PreAdjustValues();
      PostAdjustValues();
    }

    /** Initialises a fresh asset on a lattice at time `t`. An option needs an underlying that is already initialised
        on the same lattice, no earlier than `t`, and exercise times that the grid holds. */
    method Initialize(l: TreeLattice, t: Time) returns (r: Result<nat, LatticeError>)
      requires Linked() && Fresh() && l.tree.Valid()
      requires forall i :: 0 <= i < |l.tree.times| && CloseEnough(t, l.tree.times[i]) ==> t == l.tree.times[i]
      requires kind.CashFlowAsset? ==> KeepsSize(kind.initial, kind.pre, kind.post)
      requires kind.Option? && kind.exerciseType.American? ==> |kind.exerciseTimes| >= 2
      requires kind.Option? && kind.underlying.lattice != null ==> kind.underlying.Valid() && kind.underlying.Settled()
      modifies Repr
      ensures r.Failure? <==>
        || Index(l.tree.times, t).Failure?
        || (kind.Option? && (|| old(kind.underlying.lattice) != l
                             || old(kind.underlying.time) < t
                             || !ExerciseOnGrid(l.tree.times, kind.exerciseType, kind.exerciseTimes)))
      ensures r.Success? ==>
        && Index(l.tree.times, t) == Success(r.value)
        && Valid() && Settled() && lattice == l && start == node == r.value
      ensures r.Success? && kind.Option? ==>
        && Proc().underlying == old(kind.underlying.Proc())
        && underlyingAdjusted == (old(kind.underlying.node) == node && !kind.underlying.kind.DiscountBond?)
    {
      hide *;
      r := StartNode(l, t);
      if r.Success? {
        Begin(l, r.value);
      }
    }

    lemma WellFormedAtStart()
      requires Linked() && lattice != null && lattice.tree.Valid() && start < |lattice.tree.times|
      requires kind.CashFlowAsset? ==> KeepsSize(kind.initial, kind.pre, kind.post)
      requires kind.Option? ==>
        var u := kind.underlying;
        && u.Linked() && WellFormed(lattice.tree, u.Proc()) && start <= u.start && u.Proc().start == u.start
        && ExerciseOnGrid(lattice.tree.times, kind.exerciseType, kind.exerciseTimes)
      ensures WellFormed(lattice.tree, Proc())
    {
      hide ExerciseOnGrid, KeepsSize, Linked, Tree.Valid;
    }

    lemma UnderlyingApart()
      requires Linked() && kind.Option?
      ensures var u := kind.underlying;
        u.Linked() && this !in u.Repr && u.Repr <= Repr && this in Repr && u != this
    {
      kind.underlying.InFootprint();
    }

    lemma InFootprint()
      requires Linked()
      ensures this in Repr
    {
    }

    lemma ProcOfOption()
      requires Linked()
      ensures Proc().start == start
      ensures kind.Option? ==>
        && Proc().OptionOn? && Proc().underlying == kind.underlying.Proc()
        && Proc().underlyingAdjusted == underlyingAdjusted
    {
    }

    /** The asset takes its place on the lattice and is reset. */
    method Begin(l: TreeLattice, i: nat)
      requires Linked() && Fresh() && l.tree.Valid() && i < |l.tree.times|
      requires kind.CashFlowAsset? ==> KeepsSize(kind.initial, kind.pre, kind.post)
      requires kind.Option? ==>
        var u := kind.underlying;
        && u.Valid() && u.Settled() && u.lattice == l && i <= u.node <= u.start
        && ExerciseOnGrid(l.tree.times, kind.exerciseType, kind.exerciseTimes)
      modifies Repr
      ensures Valid() && Settled() && lattice == l && start == node == i
      ensures kind.Option? ==>
        && Proc().underlying == old(kind.underlying.Proc())
        && underlyingAdjusted == (old(kind.underlying.node) == i && !kind.underlying.kind.DiscountBond?)
    {
      hide MaxReal, CloseEnough, ExerciseOnGrid, PairwiseApart, Index, KeepsSize, Increasing, Close;
      hide DiscretizedAsset.Valid, Settled, Entered, WellFormed, Tree.Valid, Linked;
      InFootprint();
      if kind.Option? {
        UnderlyingApart();
        kind.underlying.Position();
      }
      lattice := l;
      time := l.tree.times[i];
      start, node, adjustments := i, i, [];
      underlyingAdjusted := kind.Option? && kind.underlying.node == i && !kind.underlying.kind.DiscountBond?;
      if kind.Option? {
        assert kind.underlying.Proc() == old(kind.underlying.Proc());
      }
      WellFormedAtStart();
      ProcOfOption();
      Reset(l.tree.size(i));
    }

    /** The checks made on the way: by the grid, by the option's reset and by its first adjustment. */
    method StartNode(l: TreeLattice, t: Time) returns (r: Result<nat, LatticeError>)
      requires Linked() && l.tree.Valid()
      requires kind.Option? && kind.exerciseType.American? ==> |kind.exerciseTimes| >= 2
      requires kind.Option? && kind.underlying.lattice != null ==> kind.underlying.Valid()
      requires forall i :: 0 <= i < |l.tree.times| && CloseEnough(t, l.tree.times[i]) ==> t == l.tree.times[i]
      ensures r.Failure? <==>
        || Index(l.tree.times, t).Failure?
        || (kind.Option? && (|| kind.underlying.lattice != l
                             || kind.underlying.time < t
                             || !ExerciseOnGrid(l.tree.times, kind.exerciseType, kind.exerciseTimes)))
      ensures r.Success? ==>
        && Index(l.tree.times, t) == Success(r.value) && r.value < |l.tree.times| && t == l.tree.times[r.value]
        && (kind.Option? ==> r.value <= kind.underlying.node <= kind.underlying.start)
      ensures |l.tree.times| > 0 && Increasing(l.tree.times)
    {
      hide CloseEnough, ExerciseOnGrid, PairwiseApart, Index;
      var times := l.tree.times;
      match Index(times, t) {
        case Failure(e) => return Failure(InadequateGrid(e));
        case Success(i) =>
          if kind.Option? {
            var u := kind.underlying;
            if u.lattice != l {
              return Failure(DifferentMethods);
            }
            u.Position();
            if u.time < t {
              return Failure(AlreadyEarlier(u.time));
            }
            if !ExerciseOnGrid(times, kind.exerciseType, kind.exerciseTimes) {
              return Failure(ExerciseTimeNotOnGrid);
            }
          }
          return Success(i);
      }
    }

    method Reset(size: nat)
      requires Linked() && Fresh() && lattice != null && lattice.tree.Valid()
      requires WellFormed(lattice.tree, Proc()) && start == node && time == lattice.tree.times[node]
      requires size == lattice.tree.size(node) && adjustments == []
      requires kind.Option? ==>
        var u := kind.underlying;
        && u.Valid() && u.Settled() && u.lattice == lattice && node <= u.node
        && underlyingAdjusted == (u.node == node && !u.kind.DiscountBond?)
      modifies Repr
      ensures Valid() && Settled() && Proc() == old(Proc()) && node == old(node) && lattice == old(lattice)
    {
      hide WellFormed, Tree.Valid, DiscretizedAsset.Valid, Linked;
      InFootprint();
      StartingValues(size);
      if !kind.DiscountBond? {
        AdjustValues();
      }
    }

    /** The values that the asset is given before anything is adjusted. */
    method StartingValues(size: nat)
      requires Linked() && Fresh() && lattice != null && lattice.tree.Valid()
      requires WellFormed(lattice.tree, Proc()) && start == node && time == lattice.tree.times[node]
      requires size == lattice.tree.size(node) && adjustments == []
      requires kind.Option? ==>
        var u := kind.underlying;
        && u.Valid() && u.Settled() && u.lattice == lattice && node <= u.node
        && underlyingAdjusted == (u.node == node && !u.kind.DiscountBond?)
      modifies this`values
      ensures Valid() && Proc() == old(Proc()) && (kind.DiscountBond? ==> Settled())
    {
      hide PreAdjusted, PostAdjusted, WellFormed, CloseEnough, PairwiseApart;
      EnteringAtStart(lattice.tree, Proc());
      TimeIsBounded();
      match kind {
        case DiscountBond => values := seq(size, _ => 1.0);
        case CashFlowAsset(initial, _, _, _) => values := initial(size);
        case Option(_, _, _) => values := Zeros(size);
      }
    }

    lemma TimeIsBounded()
      requires lattice != null && lattice.tree.Valid()
      requires node < |lattice.tree.times| && time == lattice.tree.times[node]
      ensures 0.0 <= time < MaxReal() && time != MaxReal()
    {
      FarFromSentinel(time, MaxReal());
    }

    /** The times at which the numerical method should stop: those of the underlying and the exercise times from the
        first non-negative one on. */
    function MandatoryTimes(): seq<Time>
      requires Linked()
      decreases depth
    {
      match kind
      case DiscountBond => []
      case CashFlowAsset(_, _, _, times) => times
      case Option(u, _, exerciseTimes) => u.MandatoryTimes() + FromFirstNonNegative(exerciseTimes)
    }

    /** The base asset has non-negative times and every exercise schedule is sorted. */
    ghost predicate Scheduled()
      requires Linked()
      decreases depth
    {
      match kind
      case DiscountBond => true
      case CashFlowAsset(_, _, _, times) => NonNegative(times)
      case Option(u, _, exerciseTimes) => u.Scheduled() && Ascending(exerciseTimes)
    }

    /** The asset `n` levels below this one. */
    ghost function Level(n: nat): (asset: DiscretizedAsset)
      requires Linked() && n <= depth
      ensures asset.Linked() && asset.depth + n == depth
      decreases depth
    {
      if n == 0 then this else kind.underlying.Level(n - 1)
    }

    /** The asset itself asks for a node at `t`: a base asset at its times, an option at the exercise times that are not
        negative, whatever the exercise type. */
    predicate AsksFor(t: Time) {
      match kind
      case DiscountBond => false
      case CashFlowAsset(_, _, _, times) => t in times
      case Option(_, _, exerciseTimes) => t in exerciseTimes && t >= 0.0
    }

    /** Some asset in the stack asks for a node at `t`. */
    ghost predicate StackAsksFor(t: Time)
      requires Linked()
    {
      exists n: nat :: n <= depth && Level(n).AsksFor(t)
    }

    lemma StackOfOption(t: Time)
      requires Linked() && kind.Option?
      ensures StackAsksFor(t) <==> AsksFor(t) || kind.underlying.StackAsksFor(t)
    {
      hide AsksFor;
      var u := kind.underlying;
      assert Level(0) == this;
      if u.StackAsksFor(t) {
        var n: nat :| n <= u.depth && u.Level(n).AsksFor(t);
        assert Level(n + 1) == u.Level(n);
      }
      if StackAsksFor(t) {
        var n: nat :| n <= depth && Level(n).AsksFor(t);
        if n > 0 {
          assert Level(n) == u.Level(n - 1);
        }
      }
    }

    /** The mandatory times are the times that this asset or one of those below it asks for. */
    lemma MandatoryTimesOfStack(t: Time)
      requires Linked() && Scheduled()
      ensures t in MandatoryTimes() <==> StackAsksFor(t)
      decreases depth
    {
      if kind.Option? {
        kind.underlying.MandatoryTimesOfStack(t);
        StackOfOption(t);
        NonNegativeTimes(kind.exerciseTimes, t);
        hide StackAsksFor, FromFirstNonNegative;
      } else {
        assert Level(0) == this;
      }
    }

    /** The dates that the option and every option below it look up. An American exercise looks up none. */
    function ExerciseDates(): seq<Time>
      requires Linked()
      decreases depth
    {
      match kind
      case Option(u, exerciseType, exerciseTimes) =>
        u.ExerciseDates() + if exerciseType.American? then [] else FromFirstNonNegative(exerciseTimes)
      case _ => []
    }

    /** The option and every option below it can look up its exercise times. */
    ghost predicate ExercisesOnGrid(times: seq<Time>)
      requires Linked() && |times| > 0 && Increasing(times)
      decreases depth
    {
      kind.Option? ==>
        && kind.underlying.ExercisesOnGrid(times)
        && (kind.exerciseType.American? || ExerciseOnGrid(times, kind.exerciseType, kind.exerciseTimes))
    }

    lemma DatesLookedUp(times: seq<Time>)
      requires Linked() && Scheduled() && |times| > 0 && Increasing(times)
      ensures ExercisesOnGrid(times) <==> forall t :: t in ExerciseDates() ==> Index(times, t).Success?
      decreases depth
    {
      hide Index, Increasing;
      if kind.Option? {
        kind.underlying.DatesLookedUp(times);
        ScheduleLookedUp(times, kind.exerciseTimes);
      }
    }

    lemma DatesAreMandatory(t: Time)
      requires Linked() && t in ExerciseDates()
      ensures t in MandatoryTimes()
      decreases depth
    {
      if t in kind.underlying.ExerciseDates() {
        kind.underlying.DatesAreMandatory(t);
      }
    }

    lemma MandatoryTimesNonNegative()
      requires Linked() && Scheduled()
      ensures NonNegative(MandatoryTimes())
      decreases depth
    {
      if kind.Option? {
        kind.underlying.MandatoryTimesNonNegative();
        NegativesDropped(kind.exerciseTimes);
      }
    }

    /** A grid that holds the retained mandatory times of a stack of options serves every option in it, if none of
        the times is lost to zero. */
    lemma GridServesExercise(times: seq<Time>)
      requires Linked() && Scheduled() && MandatoryTimes() != [] && ClearOfZero(MandatoryTimes())
      requires |times| > 0 && Increasing(times) && NonNegative(times)
      requires forall r :: r in Retained(MandatoryTimes()) ==> r in times
      ensures ExercisesOnGrid(times)
    {
      hide *;
      MandatoryTimesNonNegative();
      DatesLookedUp(times);
      forall t | t in ExerciseDates() ensures Index(times, t).Success? {
        DatesAreMandatory(t);
        ClearTimesIndexed(MandatoryTimes(), times, t);
      }
    }

    /** The grid of an option's own mandatory times serves it, and every option below it, exactly when no exercise date
        is missed next to zero; and so does any subdivision of it when no time is lost to zero. */
    lemma OwnGridsServeExercise(steps: nat)
      requires Linked() && Scheduled() && MandatoryTimes() != []
      ensures NonNegative(MandatoryTimes())
      ensures var m := Retained(MandatoryTimes());
        && Increasing(m) && m[0] >= 0.0 && Increasing(MandatoryNodes(m))
        && (ExercisesOnGrid(MandatoryNodes(m))
            <==> forall t :: t in ExerciseDates() ==> !Missed(MandatoryTimes(), t))
        && (ClearOfZero(MandatoryTimes()) ==> ExercisesOnGrid(MandatoryNodes(m)))
        && (steps > 0 || HasInterval(m) ==>
          && Increasing(SubdividedNodes(m, steps))
          && (ClearOfZero(MandatoryTimes()) ==> ExercisesOnGrid(SubdividedNodes(m, steps))))
    {
      hide *;
      var input := MandatoryTimes();
      MandatoryTimesNonNegative();
      var m := Retained(input);
      RetainedTimes(input);
      NegativeTimesRejected(input);
      MandatoryGrid(input);
      StartingFromZero(MandatoryNodes(m));
      DatesLookedUp(MandatoryNodes(m));
      forall t | t in ExerciseDates() ensures Index(MandatoryNodes(m), t).Failure? <==> Missed(input, t) {
        DatesAreMandatory(t);
        MandatoryTimeIndexed(input, t);
      }
      if ClearOfZero(input) {
        GridServesExercise(MandatoryNodes(m));
      }
      if steps > 0 || HasInterval(m) {
        SubdividedGrid(m, steps);
        StartingFromZero(SubdividedNodes(m, steps));
        if ClearOfZero(input) {
          GridServesExercise(SubdividedNodes(m, steps));
        }
      }
    }

    /** Whether the asset was rolled to the node that the grid holds for `t`. */
    predicate IsOnTime(times: seq<Time>, t: Time)
      requires |times| > 0 && Increasing(times) && Index(times, t).Success?
      reads this
    {
      CloseEnough(times[Index(times, t).value], time)
    }

    method ApplyExerciseCondition()
      requires kind.Option? && kind.underlying != this && |kind.underlying.values| == |values|
      modifies this`values
      ensures values == Larger(kind.underlying.values, old(values))
    {
      ghost var result := Larger(kind.underlying.values, values);
      for i := 0 to |values|
        invariant |values| == |old(values)|
        invariant values == result[..i] + old(values)[i..]
      {
        values := values[i := Max(kind.underlying.values[i], values[i])];
      }
    }

    /** The underlying is rolled to the option's time and pre-adjusted there. When the option then looks at its values
        it has already been post-adjusted only at the option's first node, and only if it was there before. */
    method LookAtUnderlying()
      requires Linked() && Valid() && kind.Option? && latestPostAdjustment != time
      modifies kind.underlying.Repr
      ensures Proc() == old(Proc())
      ensures var u := kind.underlying;
        && u.Linked() && u.Valid() && u.lattice == lattice && u.node == node && u.latestPreAdjustment == u.time
      ensures lattice != null && lattice.tree.Valid() && WellFormed(lattice.tree, Proc())
      ensures kind.underlying.values == Payoff(lattice.tree, Proc(), node)
      ensures !kind.underlying.kind.DiscountBond? ==>
        (kind.underlying.latestPostAdjustment == kind.underlying.time <==> node == start && underlyingAdjusted)
      decreases depth, 0, 1
    {
      hide DiscretizedAsset.Valid, Tree.Valid, WellFormed, CloseEnough, TreeLattice.Target;
      hide Payoff, PreAdjusted, PostAdjusted, Entering, Exercisable, ExerciseOnGrid, Index, Larger, Increasing;
      var u := kind.underlying;
      Position();
      Coupling();
      u.Position();
      lattice.TargetOfNode(u.node, node);
      PayoffCases(lattice.tree, Proc(), node);
      u.PhaseValues();
      u.Kinds();
      var r := lattice.PartialRollback(u, time);
      u.PhaseValues();
      u.PreAdjustValues();
      u.PhaseValues();
    }

    /** Exercise, and the underlying's own post-adjustment once the option has looked at it. */
    method ExerciseOption()
      requires Linked() && Valid() && kind.Option?
      requires latestPreAdjustment == time && latestPostAdjustment != time
      modifies this`values, kind.underlying.Repr
      ensures Proc() == old(Proc()) && kind.underlying.Valid()
      ensures kind.underlying.Settled() && kind.underlying.node == node && kind.underlying.lattice == lattice
      ensures values == PostAdjusted(lattice.tree, Proc(), node)
      decreases depth, 0, 2
    {
      hide DiscretizedAsset.Valid, Tree.Valid, WellFormed, CloseEnough, TreeLattice.Target;
      hide Payoff, PreAdjusted, PostAdjusted, Entering, Exercisable, ExerciseOnGrid, Index, Larger, Increasing;
      var u := kind.underlying;
      PhaseValues();
      Position();
      Coupling();
      PreAdjustedStep(lattice.tree, Proc(), node);
      OptionStep(lattice.tree, Proc(), node);
      RightsOf(lattice.tree, Proc(), node);
      LookAtUnderlying();
      ApplyExerciseRights();
      u.PostAdjustValues();
    }

    /** Exercises if the exercise type and times allow it now. */
    method ApplyExerciseRights()
      requires kind.Option? && kind.underlying != this && |kind.underlying.values| == |values|
      requires lattice != null && lattice.tree.Valid()
      requires node < |lattice.tree.times| && time == lattice.tree.times[node]
      requires Increasing(lattice.tree.times)
      requires ExerciseOnGrid(lattice.tree.times, kind.exerciseType, kind.exerciseTimes)
      modifies this`values
      ensures values == if Exercisable(lattice.tree.times, kind.exerciseType, kind.exerciseTimes, node)
                        then Larger(kind.underlying.values, old(values)) else old(values)
    {
      match kind.exerciseType {
        case American =>
          if kind.exerciseTimes[0] <= time <= kind.exerciseTimes[1] {
            ApplyExerciseCondition();
          }
        case _ => ExerciseOnDates();
      }
    }

    /** The loop over the exercise times. */
    method ExerciseOnDates()
      requires kind.Option? && !kind.exerciseType.American?
      requires kind.underlying != this && |kind.underlying.values| == |values|
      requires lattice != null && lattice.tree.Valid()
      requires node < |lattice.tree.times| && time == lattice.tree.times[node]
      requires ExerciseOnGrid(lattice.tree.times, kind.exerciseType, kind.exerciseTimes)
      modifies this`values
      ensures values == if AnyOnTime(lattice.tree.times, kind.exerciseTimes, |kind.exerciseTimes|, node)
                        then Larger(kind.underlying.values, old(values)) else old(values)
    {
      var times := lattice.tree.times;
      LargerTwice(kind.underlying.values, values);
      hide Index, CloseEnough, Larger, ClosestTime, PairwiseApart, Abs;
      for i := 0 to |kind.exerciseTimes|
        invariant values == if AnyOnTime(times, kind.exerciseTimes, i, node)
                            then Larger(kind.underlying.values, old(values)) else old(values)
      {
        var t := kind.exerciseTimes[i];
        AnyOnTimeNext(times, kind.exerciseTimes, i, node);
        if t >= 0.0 && IsOnTime(times, t) {
          ApplyExerciseCondition();
        }
      }
    }
  }

  // ----- whole runs -----

  /** Initialising an option and rolling it back leaves it with the least values, node by node, that are non-negative
      at its start, not below their own step back, and not below the underlying wherever exercise is allowed. The option
      starts at the node of `t` and ends at that of `to`; the run fails exactly when one of these is not to be had, the
      underlying is on another lattice or already earlier, or the grid does not hold the exercise times. */
  method PriceOption(option: DiscretizedAsset, l: TreeLattice, t: Time, to: Time) returns (r: Result<nat, LatticeError>)
    requires option.Linked() && option.Fresh() && option.kind.Option? && l.tree.Valid()
    requires forall i :: 0 <= i < |l.tree.times| && CloseEnough(t, l.tree.times[i]) ==> t == l.tree.times[i]
    requires option.kind.exerciseType.American? ==> |option.kind.exerciseTimes| >= 2
    requires option.kind.underlying.lattice != null ==>
      option.kind.underlying.Valid() && option.kind.underlying.Settled()
    modifies option.Repr
    ensures r.Failure? <==>
      || Index(l.tree.times, t).Failure?
      || old(option.kind.underlying.lattice) != l || old(option.kind.underlying.time) < t
      || !ExerciseOnGrid(l.tree.times, option.kind.exerciseType, option.kind.exerciseTimes)
      || l.Target(Index(l.tree.times, t).value, to).Failure?
    ensures r.Success? ==> Index(l.tree.times, t) == Success(option.Proc().start)
    ensures r.Success? ==>
      var p := option.Proc();
      && r == l.Target(p.start, to)
      && p.OptionOn? && p.underlying == old(option.kind.underlying.Proc()) && WellFormed(l.tree, p)
      && option.node == r.value <= p.start
      && Dominates(l.tree, p, OptionValues(l.tree, p)) && option.values == OptionValues(l.tree, p)[r.value]
      && (l.tree.NonNegativeWeights() ==>
        forall w: seq<seq<real>> :: Dominates(l.tree, p, w) ==> Below(option.values, w[r.value]))
  {
    hide *;
    r := option.Initialize(l, t);
    if r.Success? {
      option.Position();
      r := l.Rollback(option, to);
      if r.Success? {
        option.Position();
        option.Kinds();
        var p := option.Proc();
        OptionValuesDominate(l.tree, p);
        OptionValueAt(l.tree, p, r.value);
        if l.tree.NonNegativeWeights() {
          forall w: seq<seq<real>> | Dominates(l.tree, p, w) ensures Below(option.values, w[r.value]) {
            OptionValuesAreLeast(l.tree, p, w, r.value);
          }
        }
      }
    }
  }

  /** An asset initialised on a lattice with a single node. */
  method InitializedPayer(l: TreeLattice) returns (payer: DiscretizedAsset)
    requires l.tree == SingleNode()
    ensures payer.Linked() && fresh(payer.Repr) && payer.kind.CashFlowAsset? && payer.Proc() == PaysOne()
    ensures l.tree.Valid() && payer.Valid() && payer.Settled()
    ensures payer.lattice == l && payer.start == payer.node == 0 && payer.time == 0.0
  {
    SingleNodeIsValid();
    OnSingleNode();
    payer := new DiscretizedAsset(CashFlowAsset(PaysOne().initial, PaysOne().pre, PaysOne().post, []));
    hide CloseEnough, Index, Tree.Valid, DiscretizedAsset.Valid, KeepsSize, DiscretizedAsset.Settled, Increasing;
    var r := payer.Initialize(l, 0.0);
    payer.Position();
  }

  /** An option initialised at the node where its underlying was initialised exercises after the underlying's payment
      at that node: it ends up worth one, although it would be worth nothing before the payment. */
  method ExercisedAfterPayment() returns (underlying: DiscretizedAsset, option: DiscretizedAsset)
    ensures underlying.Linked() && underlying.Proc() == PaysOne()
    ensures option.kind.Option? && option.kind.underlying == underlying && option.values == [1.0]
    ensures SingleNode().Valid() && WellFormed(SingleNode(), PaysOne())
    ensures PreAdjusted(SingleNode(), PaysOne(), 0) == [0.0]
  {
    SingleNodeIsTree(true);
    PaysOneValues();
    ExerciseAfterPayment();
    OnSingleNode();
    hide PreAdjusted, PostAdjusted, WellFormed, Tree.Valid, Index, CloseEnough, DiscretizedAsset.Valid, ExerciseOnGrid;
    hide DiscretizedAsset.Settled, Increasing, SingleNode;
    var l := new TreeLattice(SingleNode());
    underlying := InitializedPayer(l);
    option := new DiscretizedAsset(Option(underlying, European, [0.0]));
    var _ := option.Initialize(l, 0.0);
    option.PhaseValues();
  }

  lemma OnSingleNode()
    ensures Increasing(SingleNode().times) && ExerciseOnGrid(SingleNode().times, European, [0.0])
    ensures Index(SingleNode().times, 0.0) == Success(0)
    ensures KeepsSize(PaysOne().initial, PaysOne().pre, PaysOne().post)
    ensures SingleNode().times == [0.0]
  {
    ExercisableAtZero();
    IndexOfNode([0.0], 0);
  }
}
