/** What the values of a discretized asset mean at every node of a tree, independently of the order in which
    the numerical method visits and adjusts them (ql/discretizedasset.hpp, ql/discretizedasset.cpp). */
module Processes {
  import opened Comparison
  import opened TimeGrids
  import opened Lattices

  datatype ExerciseType = American | Bermudan | European

  /** An asset initialised at node `start`: a discount bond, an asset paying cash flows before and after any
      exercise at a node, or an option on another asset. An option may find that its underlying has already been
      adjusted at the node where the option starts. */
  datatype Process =
    | Bond(start: nat)
    | CashFlows(start: nat, initial: nat -> seq<real>,
                pre: (Time, seq<real>) -> seq<real>, post: (Time, seq<real>) -> seq<real>)
    | OptionOn(start: nat, underlying: Process, underlyingAdjusted: bool,
               exerciseType: ExerciseType, exerciseTimes: seq<Time>)

  /** The adjustments keep the number of values. */
  ghost predicate KeepsSize(initial: nat -> seq<real>,
                            pre: (Time, seq<real>) -> seq<real>, post: (Time, seq<real>) -> seq<real>) {
    && (forall n :: |initial(n)| == n)
    && (forall t, v :: |pre(t, v)| == |v|)
    && (forall t, v :: |post(t, v)| == |v|)
  }

  /** An American exercise reads two times; all others look up every non-negative time on the grid. */
  predicate ExerciseOnGrid(times: seq<Time>, exerciseType: ExerciseType, exerciseTimes: seq<Time>)
    requires |times| > 0 && Increasing(times)
  {
    if exerciseType.American? then |exerciseTimes| >= 2
    else forall k :: 0 <= k < |exerciseTimes| && exerciseTimes[k] >= 0.0 ==> Index(times, exerciseTimes[k]).Success?
  }

  ghost predicate WellFormed(tree: Tree, p: Process)
    requires tree.Valid()
  {
    && p.start < |tree.times|
    && match p
       case Bond(_) => true
       case CashFlows(_, initial, pre, post) => KeepsSize(initial, pre, post)
       case OptionOn(start, u, _, exerciseType, exerciseTimes) =>
         WellFormed(tree, u) && start <= u.start && ExerciseOnGrid(tree.times, exerciseType, exerciseTimes)
  }

  /** The node that the grid holds for time `t` is close to node `i`. */
  predicate OnTime(times: seq<Time>, t: Time, i: nat)
    requires i < |times| && Increasing(times) && Index(times, t).Success?
  {
    CloseEnough(times[Index(times, t).value], times[i])
  }

  predicate Exercisable(times: seq<Time>, exerciseType: ExerciseType, exerciseTimes: seq<Time>, i: nat)
    requires i < |times| && Increasing(times) && ExerciseOnGrid(times, exerciseType, exerciseTimes)
  {
    if exerciseType.American? then exerciseTimes[0] <= times[i] <= exerciseTimes[1]
    else AnyOnTime(times, exerciseTimes, |exerciseTimes|, i)
  }

  /** One of the first `n` times is on time at node `i`. */
  predicate AnyOnTime(times: seq<Time>, exerciseTimes: seq<Time>, n: nat, i: nat)
    requires i < |times| && Increasing(times) && n <= |exerciseTimes|
    requires ExerciseOnGrid(times, Bermudan, exerciseTimes)
  {
    exists k :: 0 <= k < n && exerciseTimes[k] >= 0.0 && OnTime(times, exerciseTimes[k], i)
  }

  lemma AnyOnTimeNext(times: seq<Time>, exerciseTimes: seq<Time>, n: nat, i: nat)
    requires i < |times| && Increasing(times) && n < |exerciseTimes|
    requires ExerciseOnGrid(times, Bermudan, exerciseTimes)
    ensures AnyOnTime(times, exerciseTimes, n + 1, i)
       <==> AnyOnTime(times, exerciseTimes, n, i) || (exerciseTimes[n] >= 0.0 && OnTime(times, exerciseTimes[n], i))
  {
    hide Index, OnTime;
  }

  predicate ExercisableAt(tree: Tree, p: Process, i: nat)
    requires tree.Valid() && p.OptionOn? && WellFormed(tree, p) && i < |tree.times|
  {
    Exercisable(tree.times, p.exerciseType, p.exerciseTimes, i)
  }

  function Max(x: real, y: real): real {
    if x < y then y else x
  }

  function Larger(u: seq<real>, v: seq<real>): (r: seq<real>)
    requires |u| == |v|
    ensures |r| == |v|
  {
    seq(|v|, (k: int) requires 0 <= k < |v| => Max(u[k], v[k]))
  }

  /** Values at node `i` when the asset has been rolled there and nothing else has happened. */
  ghost function Entering(tree: Tree, p: Process, i: nat): (v: seq<real>)
    requires tree.Valid() && WellFormed(tree, p) && i <= p.start
    ensures |v| == tree.size(i)
    decreases p, p.start - i, 0
  {
    if i < p.start then StepBack(tree, i, PostAdjusted(tree, p, i + 1))
    else
      match p
      case Bond(_) => seq(tree.size(i), _ => 1.0)
      case CashFlows(_, initial, _, _) => initial(tree.size(i))
      case OptionOn(_, _, _, _, _) => Zeros(tree.size(i))
  }

  /** ... after the pre-adjustment: this is what an option on the asset looks at. */
  ghost function PreAdjusted(tree: Tree, p: Process, i: nat): (v: seq<real>)
    requires tree.Valid() && WellFormed(tree, p) && i <= p.start
    ensures |v| == tree.size(i)
    decreases p, p.start - i, 1
  {
    var v := Entering(tree, p, i);
    if p.CashFlows? then p.pre(tree.times[i], v) else v
  }

  /** ... after both adjustments: this is what is rolled further back. */
  ghost function PostAdjusted(tree: Tree, p: Process, i: nat): (v: seq<real>)
    requires tree.Valid() && WellFormed(tree, p) && i <= p.start
    ensures |v| == tree.size(i)
    decreases p, p.start - i, 2
  {
    var v := PreAdjusted(tree, p, i);
    match p
    case Bond(_) => v
    case CashFlows(_, _, _, post) => post(tree.times[i], v)
    case OptionOn(_, u, underlyingAdjusted, _, _) =>
      if !ExercisableAt(tree, p, i) then v
      else if i == p.start && underlyingAdjusted then Larger(PostAdjusted(tree, u, i), v)
      else Larger(PreAdjusted(tree, u, i), v)
  }

  /** The underlying's values that the holder of an option compares with the option's. */
  ghost function Payoff(tree: Tree, p: Process, i: nat): (v: seq<real>)
    requires tree.Valid() && p.OptionOn? && WellFormed(tree, p) && i <= p.start
    ensures |v| == tree.size(i)
  {
    if i == p.start && p.underlyingAdjusted then PostAdjusted(tree, p.underlying, i)
    else PreAdjusted(tree, p.underlying, i)
  }

  lemma OptionStep(tree: Tree, p: Process, i: nat)
    requires tree.Valid() && p.OptionOn? && WellFormed(tree, p) && i <= p.start
    ensures PostAdjusted(tree, p, i) ==
      if ExercisableAt(tree, p, i) then Larger(Payoff(tree, p, i), Entering(tree, p, i))
      else Entering(tree, p, i)
  {
  }

  lemma RightsOf(tree: Tree, p: Process, i: nat)
    requires tree.Valid() && p.OptionOn? && WellFormed(tree, p) && i < |tree.times|
    ensures Increasing(tree.times) && ExerciseOnGrid(tree.times, p.exerciseType, p.exerciseTimes)
    ensures ExercisableAt(tree, p, i) == Exercisable(tree.times, p.exerciseType, p.exerciseTimes, i)
  {
  }

  lemma PayoffCases(tree: Tree, p: Process, i: nat)
    requires tree.Valid() && p.OptionOn? && WellFormed(tree, p) && i <= p.start
    ensures i == p.start && p.underlyingAdjusted ==> Payoff(tree, p, i) == PostAdjusted(tree, p.underlying, i)
    ensures i < p.start || !p.underlyingAdjusted ==> Payoff(tree, p, i) == PreAdjusted(tree, p.underlying, i)
    ensures p.underlying.Bond? ==> PreAdjusted(tree, p.underlying, i) == PostAdjusted(tree, p.underlying, i)
  {
  }

  // ----- an option that starts where its underlying does -----

  function SingleNode(): Tree {
    Tree([0.0], 0, _ => 1, (_, _) => 1.0, (_, _, _) => 0, (_, _, _) => 0.0)
  }

  /** An asset worth nothing that pays one after any exercise. */
  function PaysOne(): Process {
    CashFlows(0, (n: nat) => Zeros(n), (_, v) => v, (_, v) => seq(|v|, (k: int) requires 0 <= k < |v| => v[k] + 1.0))
  }

  function EuropeanOn(u: Process, underlyingAdjusted: bool): Process {
    OptionOn(0, u, underlyingAdjusted, European, [0.0])
  }

  lemma ExercisableAtZero()
    ensures Increasing([0.0]) && ExerciseOnGrid([0.0], European, [0.0]) && Exercisable([0.0], European, [0.0], 0)
  {
    IndexOfNode([0.0], 0);
    hide Index, CloseEnough;
    assert AnyOnTime([0.0], [0.0], 1, 0) by {
      assert [0.0][0] >= 0.0 && CloseEnough([0.0][Index([0.0], [0.0][0]).value], [0.0][0]) by {
        ZeroIsClose();
      }
    }
  }

  lemma ZeroIsClose()
    ensures CloseEnough(0.0, 0.0)
  {
  }

  lemma SingleNodeIsValid()
    ensures SingleNode().Valid()
  {
  }

  lemma SingleNodeIsTree(adjusted: bool)
    ensures SingleNode().Valid() && WellFormed(SingleNode(), PaysOne())
    ensures WellFormed(SingleNode(), EuropeanOn(PaysOne(), adjusted))
    ensures ExercisableAt(SingleNode(), EuropeanOn(PaysOne(), adjusted), 0)
  {
    hide Exercisable, ExerciseOnGrid, Tree.Valid;
    SingleNodeIsValid();
    ExercisableAtZero();
  }

  lemma PaysOneValues()
    ensures SingleNode().Valid() && WellFormed(SingleNode(), PaysOne())
    ensures PreAdjusted(SingleNode(), PaysOne(), 0) == [0.0] && PostAdjusted(SingleNode(), PaysOne(), 0) == [1.0]
  {
    SingleNodeIsTree(true);
    assert Entering(SingleNode(), PaysOne(), 0) == [0.0];
  }

  /** At its first node an option on an asset that was adjusted there before also gets the payment that belongs to
      the time after the exercise; one that was not is worth nothing. */
  lemma ExerciseAfterPayment()
    ensures SingleNode().Valid() && WellFormed(SingleNode(), EuropeanOn(PaysOne(), true))
    ensures WellFormed(SingleNode(), EuropeanOn(PaysOne(), false))
    ensures PostAdjusted(SingleNode(), EuropeanOn(PaysOne(), true), 0) == [1.0]
    ensures PostAdjusted(SingleNode(), EuropeanOn(PaysOne(), false), 0) == [0.0]
  {
    var tree, u := SingleNode(), PaysOne();
    SingleNodeIsTree(true);
    SingleNodeIsTree(false);
    PaysOneValues();
    hide Tree.Valid, WellFormed, ExercisableAt, PostAdjusted, PreAdjusted;
    OptionStep(tree, EuropeanOn(u, true), 0);
    OptionStep(tree, EuropeanOn(u, false), 0);
    PayoffCases(tree, EuropeanOn(u, true), 0);
    PayoffCases(tree, EuropeanOn(u, false), 0);
    assert Larger([1.0], [0.0]) == [1.0] && Larger([0.0], [0.0]) == [0.0];
    assert Zeros(1) == [0.0];
  }

  lemma PreAdjustedStep(tree: Tree, p: Process, i: nat)
    requires tree.Valid() && WellFormed(tree, p) && i <= p.start
    ensures PreAdjusted(tree, p, i)
         == if p.CashFlows? then p.pre(tree.times[i], Entering(tree, p, i)) else Entering(tree, p, i)
  {
  }

  lemma PostAdjustedStep(tree: Tree, p: Process, i: nat)
    requires tree.Valid() && WellFormed(tree, p) && i <= p.start
    ensures p.Bond? ==> PostAdjusted(tree, p, i) == PreAdjusted(tree, p, i)
    ensures p.CashFlows? ==> PostAdjusted(tree, p, i) == p.post(tree.times[i], PreAdjusted(tree, p, i))
  {
  }

  lemma LargerTwice(u: seq<real>, v: seq<real>)
    requires |u| == |v|
    ensures Larger(u, Larger(u, v)) == Larger(u, v)
  {
  }

  lemma EnteringStep(tree: Tree, p: Process, i: nat)
    requires tree.Valid() && WellFormed(tree, p) && i < p.start
    ensures Entering(tree, p, i) == StepBack(tree, i, PostAdjusted(tree, p, i + 1))
  {
  }

  lemma EnteringAtStart(tree: Tree, p: Process)
    requires tree.Valid() && WellFormed(tree, p)
    ensures p.start < |tree.times|
    ensures Entering(tree, p, p.start)
         == match p
            case Bond(_) => seq(tree.size(p.start), _ => 1.0)
            case CashFlows(_, initial, _, _) => initial(tree.size(p.start))
            case OptionOn(_, _, _, _, _) => Zeros(tree.size(p.start))
  {
  }

  lemma BondNeedsNoAdjustment(tree: Tree, p: Process, i: nat)
    requires tree.Valid() && WellFormed(tree, p) && p.Bond? && i <= p.start
    ensures PostAdjusted(tree, p, i) == PreAdjusted(tree, p, i) == Entering(tree, p, i)
  {
  }

  lemma LargerIsAbove(u: seq<real>, v: seq<real>)
    requires |u| == |v|
    ensures Below(u, Larger(u, v)) && Below(v, Larger(u, v))
  {
  }

  // ----- the Snell envelope -----

  /** A family of values, one vector per node up to the start of the rollback, that is non-negative at the start,
      not below its own step back and not below the underlying wherever exercise is allowed. */
  ghost predicate Dominates(tree: Tree, p: Process, w: seq<seq<real>>)
    requires tree.Valid() && p.OptionOn? && WellFormed(tree, p)
  {
    && |w| == p.start + 1
    && (forall i :: 0 <= i <= p.start ==> |w[i]| == tree.size(i))
    && Below(Zeros(tree.size(p.start)), w[p.start])
    && (forall i :: 0 <= i < p.start ==> Below(StepBack(tree, i, w[i + 1]), w[i]))
    && (forall i :: 0 <= i <= p.start && ExercisableAt(tree, p, i) ==> Below(Payoff(tree, p, i), w[i]))
  }

  ghost function OptionValues(tree: Tree, p: Process): (w: seq<seq<real>>)
    requires tree.Valid() && WellFormed(tree, p)
    ensures |w| == p.start + 1
  {
    seq(p.start + 1, (i: int) requires 0 <= i <= p.start => PostAdjusted(tree, p, i))
  }

  lemma OptionValueAt(tree: Tree, p: Process, i: nat)
    requires tree.Valid() && WellFormed(tree, p) && i <= p.start
    ensures OptionValues(tree, p)[i] == PostAdjusted(tree, p, i)
    ensures forall w: seq<seq<real>> :: p.OptionOn? && Dominates(tree, p, w) ==> |w| == p.start + 1
  {
  }

  /** The rolled-back option values dominate ... */
  lemma OptionValuesDominate(tree: Tree, p: Process)
    requires tree.Valid() && p.OptionOn? && WellFormed(tree, p)
    ensures Dominates(tree, p, OptionValues(tree, p))
  {
    var w := OptionValues(tree, p);
    if p.start > 0 {
      forall i | 0 <= i < p.start ensures Entering(tree, p, i) == StepBack(tree, i, w[i + 1]) {
        EnteringStep(tree, p, i);
      }
    }
    hide WellFormed, PreAdjusted, PostAdjusted, StepBack;
    forall i | 0 <= i <= p.start
      ensures |w[i]| == tree.size(i)
      ensures Below(Entering(tree, p, i), w[i])
      ensures ExercisableAt(tree, p, i) ==> Below(Payoff(tree, p, i), w[i])
    {
      OptionStep(tree, p, i);
      LargerIsAbove(Payoff(tree, p, i), Entering(tree, p, i));
    }
  }

  /** ... and are the least values that do. */
  lemma {:induction false} OptionValuesAreLeast(tree: Tree, p: Process, w: seq<seq<real>>, i: nat)
    requires tree.Valid() && tree.NonNegativeWeights() && p.OptionOn? && WellFormed(tree, p)
    requires Dominates(tree, p, w) && i <= p.start
    ensures Below(PostAdjusted(tree, p, i), w[i])
    decreases p.start - i
  {
    if i < p.start {
      OptionValuesAreLeast(tree, p, w, i + 1);
      StepBackMonotone(tree, i, PostAdjusted(tree, p, i + 1), w[i + 1]);
      EnteringStep(tree, p, i);
    } else {
      assert Entering(tree, p, i) == Zeros(tree.size(i));
    }
    LeastStep(tree, p, w, i);
  }

  lemma LeastStep(tree: Tree, p: Process, w: seq<seq<real>>, i: nat)
    requires tree.Valid() && p.OptionOn? && WellFormed(tree, p)
    requires Dominates(tree, p, w) && i <= p.start && Below(Entering(tree, p, i), w[i])
    ensures Below(PostAdjusted(tree, p, i), w[i])
  {
    hide PostAdjusted, Entering, Payoff, WellFormed, Exercisable, StepBack, Tree.Valid;
    OptionStep(tree, p, i);
  }

  // ----- exercise policies -----

  /** What the holder collects by exercising where `policy` says so, as far as the contract allows it. */
  ghost function PolicyValues(tree: Tree, p: Process, policy: (nat, nat) -> bool, i: nat): (v: seq<real>)
    requires tree.Valid() && p.OptionOn? && WellFormed(tree, p) && i <= p.start
    ensures |v| == tree.size(i)
    decreases p.start - i
  {
    var wait := if i == p.start then Zeros(tree.size(i)) else StepBack(tree, i, PolicyValues(tree, p, policy, i + 1));
    if ExercisableAt(tree, p, i) then Choose(Payoff(tree, p, i), wait, policy, i) else wait
  }

  function Choose(exercise: seq<real>, wait: seq<real>, policy: (nat, nat) -> bool, i: nat): (v: seq<real>)
    requires |exercise| == |wait|
    ensures |v| == |wait|
  {
    seq(|wait|, (k: int) requires 0 <= k < |wait| => if policy(i, k) then exercise[k] else wait[k])
  }

  lemma ChoiceIsBelow(exercise: seq<real>, wait: seq<real>, v: seq<real>, policy: (nat, nat) -> bool, i: nat)
    requires |exercise| == |wait| && Below(wait, v)
    ensures Below(Choose(exercise, wait, policy, i), Larger(exercise, v))
  {
  }

  /** No exercise policy is worth more than the option ... */
  lemma {:induction false} PoliciesAreBelow(tree: Tree, p: Process, policy: (nat, nat) -> bool, i: nat)
    requires tree.Valid() && tree.NonNegativeWeights() && p.OptionOn? && WellFormed(tree, p) && i <= p.start
    ensures Below(PolicyValues(tree, p, policy, i), PostAdjusted(tree, p, i))
    decreases p.start - i
  {
    if i < p.start {
      PoliciesAreBelow(tree, p, policy, i + 1);
      StepBackMonotone(tree, i, PolicyValues(tree, p, policy, i + 1), PostAdjusted(tree, p, i + 1));
    }
    var v := Entering(tree, p, i);
    var wait := if i == p.start then Zeros(tree.size(i)) else StepBack(tree, i, PolicyValues(tree, p, policy, i + 1));
    assert Below(wait, v);
    OptionStep(tree, p, i);
    if ExercisableAt(tree, p, i) {
      ChoiceIsBelow(Payoff(tree, p, i), wait, v, policy, i);
    }
  }

  /** Exercise as soon as the underlying exceeds the value of waiting. */
  ghost function BestPolicy(tree: Tree, p: Process): (nat, nat) -> bool
    requires tree.Valid() && p.OptionOn? && WellFormed(tree, p)
  {
    (i: nat, k: nat) =>
      i <= p.start && k < tree.size(i) && Entering(tree, p, i)[k] <= Payoff(tree, p, i)[k]
  }

  /** ... and one of them is worth exactly as much. */
  lemma {:induction false} BestPolicyIsWorthTheOption(tree: Tree, p: Process, i: nat)
    requires tree.Valid() && p.OptionOn? && WellFormed(tree, p) && i <= p.start
    ensures PolicyValues(tree, p, BestPolicy(tree, p), i) == PostAdjusted(tree, p, i)
    decreases p.start - i
  {
    if i < p.start {
      BestPolicyIsWorthTheOption(tree, p, i + 1);
    } else {
      assert Entering(tree, p, i) == Zeros(tree.size(i));
    }
    OptionStep(tree, p, i);
    if i < p.start {
      EnteringStep(tree, p, i);
    }
    BestChoice(tree, p, i);
    hide PostAdjusted, Entering, Payoff, Larger, WellFormed, Exercisable, BestPolicy, Choose, StepBack, Tree.Valid;
  }

  lemma BestChoice(tree: Tree, p: Process, i: nat)
    requires tree.Valid() && p.OptionOn? && WellFormed(tree, p) && i <= p.start
    ensures Choose(Payoff(tree, p, i), Entering(tree, p, i), BestPolicy(tree, p), i)
         == Larger(Payoff(tree, p, i), Entering(tree, p, i))
  {
    var u, v := Payoff(tree, p, i), Entering(tree, p, i);
    forall k | 0 <= k < |v| ensures BestPolicy(tree, p)(i, k) == (v[k] <= u[k]) {}
  }

  // ----- more exercise rights are never worth less -----

  /** `q` is `p` with exercise allowed wherever `p` allows it, at every level of nesting. */
  ghost predicate Richer(tree: Tree, p: Process, q: Process)
    requires tree.Valid() && WellFormed(tree, p) && WellFormed(tree, q)
  {
    if p.OptionOn? && q.OptionOn? then
      && p.start == q.start && p.underlyingAdjusted == q.underlyingAdjusted
      && Richer(tree, p.underlying, q.underlying)
      && forall i :: 0 <= i <= p.start && ExercisableAt(tree, p, i) ==> ExercisableAt(tree, q, i)
    else
      p == q
  }

  lemma LargerMonotone(u: seq<real>, v: seq<real>, u': seq<real>, v': seq<real>)
    requires |u| == |v| && Below(u, u') && Below(v, v')
    ensures Below(Larger(u, v), Larger(u', v')) && Below(v, Larger(u', v'))
  {
  }

  lemma RicherStep(tree: Tree, p: Process, q: Process, i: nat)
    requires tree.Valid() && WellFormed(tree, p) && WellFormed(tree, q)
    requires p.OptionOn? && q.OptionOn? && Richer(tree, p, q) && i <= p.start
    requires Below(Entering(tree, p, i), Entering(tree, q, i))
    requires Below(Payoff(tree, p, i), Payoff(tree, q, i))
    ensures Below(PostAdjusted(tree, p, i), PostAdjusted(tree, q, i))
  {
    OptionStep(tree, p, i);
    OptionStep(tree, q, i);
    LargerMonotone(Payoff(tree, p, i), Entering(tree, p, i), Payoff(tree, q, i), Entering(tree, q, i));
    hide PostAdjusted, Entering, Payoff, Larger, Exercisable, WellFormed;
  }

  lemma {:induction false} RicherIsWorthMore(tree: Tree, p: Process, q: Process, i: nat)
    requires tree.Valid() && tree.NonNegativeWeights() && WellFormed(tree, p) && WellFormed(tree, q)
    requires Richer(tree, p, q) && i <= p.start
    ensures i <= q.start
    ensures Below(Entering(tree, p, i), Entering(tree, q, i))
    ensures Below(PreAdjusted(tree, p, i), PreAdjusted(tree, q, i))
    ensures Below(PostAdjusted(tree, p, i), PostAdjusted(tree, q, i))
    decreases p, p.start - i
  {
    hide Exercisable, ExerciseOnGrid, Larger, StepBack, OnTime, Tree.Valid, Tree.NonNegativeWeights;
    if p.OptionOn? && q.OptionOn? {
      if i < p.start {
        RicherIsWorthMore(tree, p, q, i + 1);
        StepBackMonotone(tree, i, PostAdjusted(tree, p, i + 1), PostAdjusted(tree, q, i + 1));
      }
      RicherIsWorthMore(tree, p.underlying, q.underlying, i);
      RicherStep(tree, p, q, i);
    }
  }

  /** Adding dates to a European or Bermudan option adds exercise rights. */
  lemma MoreDates(times: seq<Time>, pType: ExerciseType, pTimes: seq<Time>, qType: ExerciseType, qTimes: seq<Time>,
                  i: nat)
    requires i < |times| && Increasing(times) && !pType.American? && !qType.American?
    requires ExerciseOnGrid(times, pType, pTimes) && ExerciseOnGrid(times, qType, qTimes)
    requires forall t :: t in pTimes ==> t in qTimes
    ensures Exercisable(times, pType, pTimes, i) ==> Exercisable(times, qType, qTimes, i)
  {
    if Exercisable(times, pType, pTimes, i) {
      var k :| 0 <= k < |pTimes| && pTimes[k] >= 0.0 && OnTime(times, pTimes[k], i);
      assert pTimes[k] in qTimes;
    }
  }

  /** An American window gives all the rights of a schedule exactly when it contains the node that the grid holds for
      each date. Containing the dates themselves is not enough. */
  lemma WindowCoversDates(times: seq<Time>, pType: ExerciseType, pTimes: seq<Time>, window: seq<Time>)
    requires |times| > 0 && Increasing(times) && PairwiseApart(times) && !pType.American?
    requires ExerciseOnGrid(times, pType, pTimes) && |window| >= 2
    ensures (forall i :: 0 <= i < |times| && Exercisable(times, pType, pTimes, i) ==>
              Exercisable(times, American, window, i))
       <==> forall k :: 0 <= k < |pTimes| && pTimes[k] >= 0.0 ==>
              window[0] <= times[Index(times, pTimes[k]).value] <= window[1]
  {
    hide Index, PairwiseApart;
    if forall i :: 0 <= i < |times| && Exercisable(times, pType, pTimes, i) ==>
         Exercisable(times, American, window, i)
    {
      forall k | 0 <= k < |pTimes| && pTimes[k] >= 0.0
        ensures window[0] <= times[Index(times, pTimes[k]).value] <= window[1]
      {
        var i := Index(times, pTimes[k]).value;
        OnTimeAtOneNode(times, pTimes[k], i);
        assert Exercisable(times, pType, pTimes, i);
      }
    } else {
      var i :| 0 <= i < |times| && Exercisable(times, pType, pTimes, i) && !Exercisable(times, American, window, i);
      var k :| 0 <= k < |pTimes| && pTimes[k] >= 0.0 && OnTime(times, pTimes[k], i);
      OnTimeAtOneNode(times, pTimes[k], i);
    }
  }

  /** The window contains a date whose node it does not contain: the date is half the tolerance above the node. */
  lemma WindowMissesNode()
    ensures var times, t := [0.0, 1.0], 1.0 + TOLERANCE / 2.0;
      && Increasing(times) && PairwiseApart(times) && ExerciseOnGrid(times, European, [t])
      && Exercisable(times, European, [t], 1) && !Exercisable(times, American, [t, 2.0], 1)
  {
    var times, t := [0.0, 1.0], 1.0 + TOLERANCE / 2.0;
    assert CloseEnough(t, 1.0);
    assert ClosestIndex(times, t) == 1;
    assert Index(times, t).Success? && Index(times, t).value == 1;
    assert [t][0] >= 0.0 && OnTime(times, [t][0], 1);
  }

  /** A European or Bermudan option is worth at least as much with more dates. */
  lemma MoreDatesAreWorthMore(tree: Tree, p: Process, q: Process, i: nat)
    requires tree.Valid() && tree.NonNegativeWeights() && WellFormed(tree, p) && WellFormed(tree, q)
    requires p.OptionOn? && q.OptionOn? && q == p.(exerciseType := q.exerciseType, exerciseTimes := q.exerciseTimes)
    requires !p.exerciseType.American? && !q.exerciseType.American?
    requires (forall t :: t in p.exerciseTimes ==> t in q.exerciseTimes) && i <= p.start
    ensures Below(PostAdjusted(tree, p, i), PostAdjusted(tree, q, i))
  {
    hide Exercisable, ExerciseOnGrid, Tree.Valid, Tree.NonNegativeWeights, PostAdjusted, Entering, PreAdjusted;
    AlikeIsRicher(tree, p.underlying);
    forall k | 0 <= k <= p.start && ExercisableAt(tree, p, k) ensures ExercisableAt(tree, q, k) {
      RightsOf(tree, p, k);
      RightsOf(tree, q, k);
      MoreDates(tree.times, p.exerciseType, p.exerciseTimes, q.exerciseType, q.exerciseTimes, k);
    }
    assert Richer(tree, p, q);
    RicherIsWorthMore(tree, p, q, i);
  }

  /** And an American one is worth at least as much whose window contains the nodes of all the dates. */
  lemma WindowIsWorthMore(tree: Tree, p: Process, q: Process, i: nat)
    requires tree.Valid() && tree.NonNegativeWeights() && WellFormed(tree, p) && WellFormed(tree, q)
    requires p.OptionOn? && q.OptionOn? && q == p.(exerciseType := American, exerciseTimes := q.exerciseTimes)
    requires !p.exerciseType.American? && i <= p.start
    requires Increasing(tree.times) && ExerciseOnGrid(tree.times, p.exerciseType, p.exerciseTimes)
    requires ExerciseOnGrid(tree.times, American, q.exerciseTimes)
    requires forall k :: 0 <= k < |p.exerciseTimes| && p.exerciseTimes[k] >= 0.0 ==>
      q.exerciseTimes[0] <= tree.times[Index(tree.times, p.exerciseTimes[k]).value] <= q.exerciseTimes[1]
    ensures Below(PostAdjusted(tree, p, i), PostAdjusted(tree, q, i))
  {
    hide Exercisable, Tree.NonNegativeWeights, PostAdjusted, Entering, PreAdjusted, Index, OnTime;
    AlikeIsRicher(tree, p.underlying);
    WindowCoversDates(tree.times, p.exerciseType, p.exerciseTimes, q.exerciseTimes);
    forall k | 0 <= k <= p.start && ExercisableAt(tree, p, k) ensures ExercisableAt(tree, q, k) {
      RightsOf(tree, p, k);
      RightsOf(tree, q, k);
    }
    assert Richer(tree, p, q);
    RicherIsWorthMore(tree, p, q, i);
  }

  lemma {:induction false} AlikeIsRicher(tree: Tree, p: Process)
    requires tree.Valid() && WellFormed(tree, p)
    ensures Richer(tree, p, p)
    decreases p
  {
    if p.OptionOn? {
      AlikeIsRicher(tree, p.underlying);
    }
  }

  /** Dates that are nodes of the grid themselves only have to be inside the window. */
  lemma WindowCoversNodes(times: seq<Time>, pType: ExerciseType, pTimes: seq<Time>, window: seq<Time>, i: nat)
    requires i < |times| && Increasing(times) && PairwiseApart(times) && !pType.American?
    requires ExerciseOnGrid(times, pType, pTimes) && |window| >= 2
    requires forall t :: t in pTimes && t >= 0.0 ==> t in times && window[0] <= t <= window[1]
    ensures Exercisable(times, pType, pTimes, i) ==> Exercisable(times, American, window, i)
  {
    if Exercisable(times, pType, pTimes, i) {
      var k :| 0 <= k < |pTimes| && pTimes[k] >= 0.0 && OnTime(times, pTimes[k], i);
      var t := pTimes[k];
      assert t in pTimes;
      NodeOnTime(times, t, i);
    }
  }

  lemma NodeOnTime(times: seq<Time>, t: Time, i: nat)
    requires i < |times| && Increasing(times) && PairwiseApart(times) && t in times
    requires Index(times, t).Success? && OnTime(times, t, i)
    ensures times[i] == t
  {
    var j :| 0 <= j < |times| && times[j] == t;
    IndexOfNode(times, j);
    OnTimeAtOneNode(times, t, i);
  }

  /** A time that the grid holds is on time at exactly one node. */
  lemma OnTimeAtOneNode(times: seq<Time>, t: Time, i: nat)
    requires i < |times| && Increasing(times) && PairwiseApart(times) && Index(times, t).Success?
    ensures OnTime(times, t, i) <==> i == Index(times, t).value
  {
    var j := Index(times, t).value;
    Symmetric(times[i], times[j]);
  }

  // ----- mandatory times -----

  /** Exercise times from the first non-negative one on. */
  function FromFirstNonNegative(times: seq<Time>): seq<Time> {
    if times == [] || times[0] >= 0.0 then times else FromFirstNonNegative(times[1..])
  }

  /** Only negative times are dropped; all of them are exactly when no negative time follows a non-negative one,
      for instance when the times are sorted. */
  lemma {:induction false} NegativesDropped(times: seq<Time>)
    ensures forall t :: t in times && t >= 0.0 ==> t in FromFirstNonNegative(times)
    ensures forall t :: t in FromFirstNonNegative(times) ==> t in times
    ensures NonNegative(FromFirstNonNegative(times))
       <==> forall i, j :: 0 <= i < j < |times| && times[i] >= 0.0 ==> times[j] >= 0.0
  {
    if times != [] && times[0] < 0.0 {
      NegativesDropped(times[1..]);
      var rest := times[1..];
      assert forall i :: 0 <= i < |rest| ==> rest[i] == times[i + 1];
      if forall i, j :: 0 <= i < j < |rest| && rest[i] >= 0.0 ==> rest[j] >= 0.0 {
        forall i, j | 0 <= i < j < |times| && times[i] >= 0.0 ensures times[j] >= 0.0 {
          assert times[i] == rest[i - 1] && times[j] == rest[j - 1];
        }
      }
    } else if times != [] && NonNegative(times) {
      assert forall j :: 0 <= j < |times| ==> times[j] in times;
    }
  }
}
