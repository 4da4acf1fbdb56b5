/** Polynomials of a square matrix and their derivative (test-suite-adjoint/adjointmatricesimpl.hpp). */
module MatrixPolynomials {
  import opened Matrices
  import opened RealArithmetic

  // ----- polynomials -----

  /** The sum of `w(k) * a^k` over `k < m`. */
  function Combination(w: nat -> real, a: Grid, m: nat, n: nat): (c: Grid)
    ensures Square(c, n)
  {
    if m == 0 then Null(n) else Plus(Combination(w, a, m - 1, n), Scaled(w(m - 1), Power(a, m - 1, n), n), n)
  }

  function Weight(p: seq<real>, k: nat): real {
    if k < |p| then p[k] else 0.0
  }

  function Weights(p: seq<real>): nat -> real {
    (k: nat) => Weight(p, k)
  }

  function Polynomial(a: Grid, p: seq<real>, n: nat): Grid {
    Combination(Weights(p), a, |p|, n)
  }

  function EntryTerms(w: nat -> real, a: Grid, n: nat, i: nat, j: nat): nat -> real {
    (k: nat) => Times(w(k), At(Power(a, k, n), i, j))
  }

  lemma EntryOfSum(c: Grid, x: real, p: Grid, n: nat, i: nat, j: nat)
    requires i < n && j < n
    ensures At(Plus(c, Scaled(x, p, n), n), i, j) == At(c, i, j) + Times(x, At(p, i, j))
    ensures At(Null(n), i, j) == 0.0
  {
  }

  lemma {:induction false} EntryOfCombination(w: nat -> real, a: Grid, m: nat, n: nat, i: nat, j: nat)
    requires i < n && j < n
    ensures At(Combination(w, a, m, n), i, j) == Sum(EntryTerms(w, a, n, i, j), m)
  {
    hide Power, Times, At, Plus, Scaled, Null;
    if m == 0 {
      EntryOfSum([], 0.0, [], n, i, j);
    } else {
      EntryOfCombination(w, a, m - 1, n, i, j);
      EntryOfSum(Combination(w, a, m - 1, n), w(m - 1), Power(a, m - 1, n), n, i, j);
    }
  }

  lemma CombinationSplits(w: nat -> real, f: nat -> real, x: real, g: nat -> real, a: Grid, m: nat, n: nat)
    requires forall k: nat :: k < m ==> w(k) == f(k) + Times(x, g(k))
    ensures Combination(w, a, m, n) == Plus(Combination(f, a, m, n), Scaled(x, Combination(g, a, m, n), n), n)
  {
    hide Times, Combination, Power, At, Plus, Scaled;
    var sum := Plus(Combination(f, a, m, n), Scaled(x, Combination(g, a, m, n), n), n);
    forall i: nat, j: nat | i < n && j < n ensures At(Combination(w, a, m, n), i, j) == At(sum, i, j) {
      EntryOfSum(Combination(f, a, m, n), x, Combination(g, a, m, n), n, i, j);
      EntryOfCombination(w, a, m, n, i, j);
      EntryOfCombination(f, a, m, n, i, j);
      EntryOfCombination(g, a, m, n, i, j);
      var scaled := (k: nat) => Times(x, EntryTerms(g, a, n, i, j)(k));
      SumScaled(EntryTerms(g, a, n, i, j), x, scaled, m);
      forall k: nat | k < m ensures EntryTerms(w, a, n, i, j)(k) == EntryTerms(f, a, n, i, j)(k) + scaled(k) {
        TimesDistributes(f(k), Times(x, g(k)), At(Power(a, k, n), i, j));
        TimesAssociative(x, g(k), At(Power(a, k, n), i, j));
      }
      SumAdded(EntryTerms(f, a, n, i, j), scaled, EntryTerms(w, a, n, i, j), m);
    }
    SameEntries(Combination(w, a, m, n), sum, n, n);
  }

  // ----- multiplication by the matrix -----

  lemma NullProduct(a: Grid, n: nat)
    ensures Product(Null(n), a, n) == Null(n)
  {
    forall i: nat, j: nat | i < n && j < n ensures At(Product(Null(n), a, n), i, j) == 0.0 {
      SumOfZeros(Terms(Null(n), a, i, j), n);
    }
    SameEntries(Product(Null(n), a, n), Null(n), n, n);
  }

  lemma PlusNothing(c: Grid, p: Grid, n: nat)
    requires Square(c, n)
    ensures Plus(c, Scaled(0.0, p, n), n) == c
  {
    SameEntries(Plus(c, Scaled(0.0, p, n), n), c, n, n);
  }

  lemma ScaledByOne(a: Grid, n: nat)
    requires Square(a, n)
    ensures Scaled(1.0, a, n) == a
  {
    SameEntries(Scaled(1.0, a, n), a, n, n);
  }

  /** Multiplying by the matrix moves every coefficient up by one power. */
  lemma {:induction false} CombinationShifts(w: nat -> real, v: nat -> real, a: Grid, m: nat, n: nat)
    requires Square(a, n) && v(0) == 0.0 && forall k: nat :: k < m ==> v(k + 1) == w(k)
    ensures Product(Combination(w, a, m, n), a, n) == Combination(v, a, m + 1, n)
  {
    hide Times, Product, Plus, Scaled, Null;
    assert Combination(v, a, m + 1, n) == Plus(Combination(v, a, m, n), Scaled(v(m), Power(a, m, n), n), n);
    if m == 0 {
      NullProduct(a, n);
      PlusNothing(Null(n), Power(a, 0, n), n);
    } else {
      var c, p := Combination(w, a, m - 1, n), Power(a, m - 1, n);
      CombinationShifts(w, v, a, m - 1, n);
      ProductOfSum(c, Scaled(w(m - 1), p, n), a, n);
      ScaledByOne(a, n);
      ProductOfScaled(w(m - 1), p, 1.0, a, n);
      TimesOver(w(m - 1), 1.0);
      PowersCommute(a, m - 1, n);
      assert Power(a, m, n) == Product(p, a, n);
    }
  }

  // ----- the derivative -----

  /** The coefficients of the derivative, one power down; the last place stays zero. */
  ghost predicate DerivativeOf(dp: seq<real>, p: seq<real>) {
    && |dp| == |p|
    && (forall i :: 0 < i < |p| ==> dp[i - 1] == Times(i as real, p[i]))
    && (|p| > 0 ==> dp[|p| - 1] == 0.0)
  }

  function Weighted(p: seq<real>): nat -> real {
    (k: nat) => Times(k as real, Weight(p, k))
  }

  /** The product of the derivative's polynomial with the matrix is the sum of `k * p[k] * a^k`. */
  lemma DerivativeTimesMatrix(a: Grid, p: seq<real>, dp: seq<real>, n: nat)
    requires Square(a, n) && DerivativeOf(dp, p)
    ensures Product(Polynomial(a, dp, n), a, n) == Combination(Weighted(p), a, |p|, n)
  {
    var v, m := Weighted(p), |p|;
    forall k: nat | k < m ensures v(k + 1) == Weights(dp)(k) {
      if k + 1 < m {
        assert dp[k + 1 - 1] == Times((k + 1) as real, p[k + 1]);
      }
    }
    CombinationShifts(Weights(dp), v, a, m, n);
    PlusNothing(Combination(v, a, m, n), Power(a, m, n), n);
  }

  function RealPower(x: real, k: nat): real {
    if k == 0 then 1.0 else Times(x, RealPower(x, k - 1))
  }

  /** What `x^k` adds to its tangent at one, divided by the square of `x - 1`. */
  function Excess(x: real, k: nat): real {
    if k == 0 then 0.0 else Times(x, Excess(x, k - 1)) + (k - 1) as real
  }

  /** The tangent of a power at one, and a multiple of the square of `x - 1`. */
  function OverTangent(x: real, k: real, excess: real): real {
    1.0 + k * (x - 1.0) + (x - 1.0) * (x - 1.0) * excess
  }

  lemma TangentStep(x: real, k: real, excess: real)
    ensures Times(x, OverTangent(x, k, excess)) == OverTangent(x, k + 1.0, Times(x, excess) + k)
  {
  }

  lemma {:induction false} PowerOverTangent(x: real, k: nat)
    ensures RealPower(x, k) == OverTangent(x, k as real, Excess(x, k))
  {
    if k > 0 {
      hide Times, OverTangent;
      PowerOverTangent(x, k - 1);
      TangentStep(x, (k - 1) as real, Excess(x, k - 1));
      assert (k - 1) as real + 1.0 == k as real;
    }
  }

  lemma {:induction false} PowerOfScaled(x: real, a: Grid, k: nat, n: nat)
    requires Square(a, n)
    ensures Power(Scaled(x, a, n), k, n) == Scaled(RealPower(x, k), Power(a, k, n), n)
  {
    if k == 0 {
      ScaledByOne(Identity(n), n);
    } else {
      PowerOfScaled(x, a, k - 1, n);
      ProductOfScaled(x, a, RealPower(x, k - 1), Power(a, k - 1, n), n);
    }
  }

  lemma CombinationStep(w: nat -> real, a: Grid, m: nat, n: nat)
    ensures Combination(w, a, m + 1, n) == Plus(Combination(w, a, m, n), Scaled(w(m), Power(a, m, n), n), n)
    ensures Combination(w, a, 0, n) == Null(n)
  {
  }

  lemma {:induction false} CombinationOfScaled(w: nat -> real, v: nat -> real, x: real, a: Grid, m: nat, n: nat)
    requires Square(a, n) && forall k: nat :: k < m ==> v(k) == Times(w(k), RealPower(x, k))
    ensures Combination(w, Scaled(x, a, n), m, n) == Combination(v, a, m, n)
  {
    hide Times, Plus, Scaled, RealPower, Power, Combination;
    if m == 0 {
      CombinationStep(w, Scaled(x, a, n), 0, n);
      CombinationStep(v, a, 0, n);
    } else {
      CombinationOfScaled(w, v, x, a, m - 1, n);
      CombinationStep(w, Scaled(x, a, n), m - 1, n);
      CombinationStep(v, a, m - 1, n);
      PowerOfScaled(x, a, m - 1, n);
      ScaledTwice(w(m - 1), RealPower(x, m - 1), Power(a, m - 1, n), n);
    }
  }

  lemma ScaledTwice(x: real, y: real, a: Grid, n: nat)
    ensures Scaled(x, Scaled(y, a, n), n) == Scaled(Times(x, y), a, n)
  {
    forall i: nat, j: nat | i < n && j < n
      ensures At(Scaled(x, Scaled(y, a, n), n), i, j) == At(Scaled(Times(x, y), a, n), i, j)
    {
      TimesAssociative(x, y, At(a, i, j));
    }
    SameEntries(Scaled(x, Scaled(y, a, n), n), Scaled(Times(x, y), a, n), n, n);
  }

  /** The weights of the polynomial at `x * a`, of its tangent, and of what lies above the tangent. */
  function WeightsAt(p: seq<real>, x: real): nat -> real {
    (k: nat) => Times(Weight(p, k), RealPower(x, k))
  }

  function ExcessWeights(p: seq<real>, x: real): nat -> real {
    (k: nat) => Times(Weight(p, k), Excess(x, k))
  }

  function TangentWeights(p: seq<real>, x: real): nat -> real {
    (k: nat) => Weight(p, k) + Times(x - 1.0, Times(k as real, Weight(p, k)))
  }

  lemma WeightsSplit(p: seq<real>, x: real, k: nat)
    requires k < |p|
    ensures WeightsAt(p, x)(k) == TangentWeights(p, x)(k) + Times(Times(x - 1.0, x - 1.0), ExcessWeights(p, x)(k))
  {
    hide Times, OverTangent;
    PowerOverTangent(x, k);
    SplitProduct(p[k], x, k as real, Excess(x, k));
  }

  lemma SplitProduct(p: real, x: real, k: real, e: real)
    ensures Times(p, OverTangent(x, k, e))
         == p + Times(x - 1.0, Times(k, p)) + Times(Times(x - 1.0, x - 1.0), Times(p, e))
  {
  }

  /** The derivative at one of the polynomial at `x * a`: the two differ from the tangent by the square of `x - 1`
      times a matrix polynomial. */
  lemma PolynomialDerivative(a: Grid, p: seq<real>, dp: seq<real>, x: real, n: nat)
    requires Square(a, n) && DerivativeOf(dp, p)
    ensures Polynomial(Scaled(x, a, n), p, n)
         == Plus(Plus(Polynomial(a, p, n), Scaled(x - 1.0, Product(Polynomial(a, dp, n), a, n), n), n),
                 Scaled(Times(x - 1.0, x - 1.0), Combination(ExcessWeights(p, x), a, |p|, n), n), n)
  {
    hide Times, Plus, Scaled, RealPower, Excess;
    var m := |p|;
    CombinationOfScaled(Weights(p), WeightsAt(p, x), x, a, m, n);
    forall k: nat | k < m
      ensures WeightsAt(p, x)(k) == TangentWeights(p, x)(k) + Times(Times(x - 1.0, x - 1.0), ExcessWeights(p, x)(k))
    {
      WeightsSplit(p, x, k);
    }
    CombinationSplits(WeightsAt(p, x), TangentWeights(p, x), Times(x - 1.0, x - 1.0), ExcessWeights(p, x), a, m, n);
    CombinationSplits(TangentWeights(p, x), Weights(p), x - 1.0, Weighted(p), a, m, n);
    DerivativeTimesMatrix(a, p, dp, n);
  }

  // ----- the code -----

  method AddTerm(result: array2<real>, x: real, power: array2<real>)
    requires result.Length0 == result.Length1 == power.Length0 == power.Length1 && result != power
    modifies result
    ensures Values(result) == Plus(old(Values(result)), Scaled(x, Values(power), power.Length0), power.Length0)
  {
    var term := Copied(power);
    ScaleInPlace(term, x);
    var _ := AddInPlace(result, term);
  }

  lemma ProductIs(a: Grid, b: Grid, n: nat)
    ensures Product(a, b, n) == MatrixProduct(a, b, n, n, n)
  {
  }

  lemma PowerStep(a: Grid, k: nat, n: nat)
    ensures Power(a, 0, n) == Identity(n) && Power(a, k + 1, n) == Product(a, Power(a, k, n), n)
  {
  }

  lemma PolynomialIs(a: Grid, p: seq<real>, n: nat)
    ensures Polynomial(a, p, n) == Combination(Weights(p), a, |p|, n)
  {
  }

  method IdentityMatrix(n: nat) returns (power: array2<real>)
    ensures fresh(power) && power.Length0 == power.Length1 == n
    ensures Values(power) == Identity(n)
  {
    power := new real[n, n]((_, _) => 0.0);
    for i := 0 to n
      invariant forall r: nat, c: nat :: r < n && c < n ==> power[r, c] == if r == c < i then 1.0 else 0.0
    {
      power[i, i] := 1.0;
    }
    SameEntries(Values(power), Identity(n), n, n);
  }

  method NullMatrix(n: nat) returns (result: array2<real>)
    ensures fresh(result) && result.Length0 == result.Length1 == n
    ensures Values(result) == Null(n)
  {
    result := new real[n, n]((_, _) => 0.0);
    SameEntries(Values(result), Null(n), n, n);
  }

  method Evaluate(m: array2<real>, a: seq<real>) returns (result: array2<real>)
    requires m.Length0 == m.Length1
    ensures fresh(result) && result.Length0 == result.Length1 == m.Length0
    ensures Values(result) == Polynomial(Values(m), a, m.Length0)
  {
    hide *;
    var n := m.Length0;
    ghost var v := Values(m);
    result := NullMatrix(n);
    var power := IdentityMatrix(n);
    CombinationStep(Weights(a), v, 0, n);
    PowerStep(v, 0, n);
    for k := 0 to |a|
      invariant fresh(power) && power.Length0 == power.Length1 == n && power != result
      invariant Values(result) == Combination(Weights(a), v, k, n)
      invariant Values(power) == Power(v, k, n)
    {
      WeightIs(a, k);
      AddTerm(result, a[k], power);
      var next := Multiply(m, power);
      power := next.value;
      ProductIs(v, Power(v, k, n), n);
      CombinationStep(Weights(a), v, k, n);
      PowerStep(v, k, n);
    }
    PolynomialIs(v, a, n);
  }

  lemma WeightIs(a: seq<real>, k: nat)
    requires k < |a|
    ensures Weights(a)(k) == a[k]
  {
  }

  /** What the test compares the recorded derivative with. */
  method AnalyticalDerivative(a: array2<real>, p: seq<real>) returns (result: array2<real>)
    requires a.Length0 == a.Length1
    ensures fresh(result) && result.Length0 == result.Length1 == a.Length0
    ensures Values(result) == Combination(Weighted(p), Values(a), |p|, a.Length0)
  {
    var dp := seq(|p|, _ => 0.0);
    var i := 1;
    while i < |p|
      invariant |dp| == |p| && 1 <= i && (|p| > 0 ==> i <= |p|)
      invariant forall k :: 0 < k < i && k < |p| ==> dp[k - 1] == Times(k as real, p[k])
      invariant forall k :: i - 1 <= k < |p| ==> dp[k] == 0.0
    {
      dp := dp[i - 1 := Times(i as real, p[i])];
      i := i + 1;
    }
    var polynomial := Evaluate(a, dp);
    var product := Multiply(polynomial, a);
    result := product.value;
    DerivativeTimesMatrix(Values(a), p, dp, a.Length0);
  }
}
