/** Derivatives read off the Taylor coefficients of a tape, with polarisation for the mixed ones
    (test-suite-adjoint/adjointeuropeanoptionportfolioimpl.hpp). */
module DerivativeCalculators {
  import opened Forms
  import opened RealArithmetic

  /** The derivatives of a scalar function at a point, up to the third order. */
  datatype Jet = Jet(gradient: nat -> real, hessian: (nat, nat) -> real, third: (nat, nat, nat) -> real)
  {
    ghost predicate Symmetric() {
      && (forall i: nat, j: nat :: hessian(i, j) == hessian(j, i))
      && (forall i: nat, j: nat, k: nat :: third(i, j, k) == third(j, i, k))
      && (forall i: nat, j: nat, k: nat :: third(i, j, k) == third(i, k, j))
    }
  }

  // ----- Taylor coefficients -----

  /** The coefficient of order `|ds|` of the function along the curve with the given coefficients. */
  function Coefficient(jet: Jet, ds: seq<Vector>): real
    requires 1 <= |ds| <= 3
  {
    var d1 := ds[0];
    if |ds| == 1 then Linear(jet.gradient, d1)
    else if |ds| == 2 then Linear(jet.gradient, ds[1]) + Times(0.5, Bilinear(jet.hessian, d1, d1))
    else
      Linear(jet.gradient, ds[2])
      + Times(0.5, Bilinear(jet.hessian, d1, ds[1]) + Bilinear(jet.hessian, ds[1], d1))
      + Times(1.0 / 6.0, Trilinear(jet.third, d1, d1, d1))
  }

  /** The cubic polynomial with the given derivatives at the origin. */
  function Cubic(jet: Jet, x: Vector): real {
    Linear(jet.gradient, x) + Times(0.5, Bilinear(jet.hessian, x, x)) + Times(1.0 / 6.0, Trilinear(jet.third, x, x, x))
  }

  function Origin(n: nat): (v: Vector)
    ensures |v| == n && Zero(v)
  {
    seq(n, _ => 0.0)
  }

  /** The point `s * d1 + s^2 * d2 + s^3 * d3` of a curve through the origin. */
  function Curve(d1: Vector, d2: Vector, d3: Vector, s: real): Vector
    requires |d1| == |d2| == |d3|
  {
    Combined(Origin(|d1|), s, Combined(d1, s, Combined(d2, s, d3)))
  }

  function Remainder(jet: Jet, d1: Vector, d2: Vector, d3: Vector, s: real): real
    requires |d1| == |d2| == |d3|
  {
    var z := Combined(d2, s, d3);
    var y := Combined(d1, s, z);
    Times(0.5, Bilinear(jet.hessian, d1, d3) + Bilinear(jet.hessian, d3, d1) + Bilinear(jet.hessian, z, z))
    + Times(1.0 / 6.0, Trilinear(jet.third, z, y, y) + Trilinear(jet.third, d1, z, y) + Trilinear(jet.third, d1, d1, z))
  }

  lemma LinearAlong(g: nat -> real, d1: Vector, d2: Vector, d3: Vector, s: real)
    requires |d1| == |d2| == |d3|
    ensures Linear(g, Curve(d1, d2, d3, s))
         == Times(s, Linear(g, d1) + Times(s, Linear(g, d2) + Times(s, Linear(g, d3))))
  {
    hide Linear, Times, Combined;
    var z := Combined(d2, s, d3);
    LinearCombined(g, Origin(|d1|), s, Combined(d1, s, z));
    LinearCombined(g, d1, s, z);
    LinearCombined(g, d2, s, d3);
    ZeroForms(g, (_, _) => 0.0, d1, Origin(|d1|));
  }

  lemma BilinearAlong(h: (nat, nat) -> real, d1: Vector, d2: Vector, d3: Vector, s: real)
    requires |d1| == |d2| == |d3|
    ensures var z := Combined(d2, s, d3);
      Bilinear(h, Curve(d1, d2, d3, s), Curve(d1, d2, d3, s)) == s * s * (Bilinear(h, d1, d1)
        + s * (Bilinear(h, d1, d2) + Bilinear(h, d2, d1))
        + s * s * (Bilinear(h, d1, d3) + Bilinear(h, d3, d1) + Bilinear(h, z, z)))
  {
    hide Linear, Combined, Bilinear;
    var z, o, x := Combined(d2, s, d3), Origin(|d1|), Curve(d1, d2, d3, s);
    var y := Combined(d1, s, z);
    ZeroForms(_ => 0.0, h, x, o);
    ZeroSecond(h, y, o);
    BilinearCombinedFirst(h, o, s, y, x);
    BilinearCombinedSecond(h, o, s, y, y);
    BilinearCombinedFirst(h, d1, s, z, y);
    BilinearCombinedSecond(h, d1, s, z, d1);
    BilinearCombinedSecond(h, d1, s, z, z);
    BilinearCombinedFirst(h, d2, s, d3, d1);
    BilinearCombinedSecond(h, d2, s, d3, d1);
  }

  lemma TrilinearAlong(t: (nat, nat, nat) -> real, d1: Vector, d2: Vector, d3: Vector, s: real)
    requires |d1| == |d2| == |d3|
    ensures var z := Combined(d2, s, d3);
      var y := Combined(d1, s, z);
      var x := Curve(d1, d2, d3, s);
      Trilinear(t, x, x, x) == s * s * s * (Trilinear(t, d1, d1, d1)
        + s * (Trilinear(t, z, y, y) + Trilinear(t, d1, z, y) + Trilinear(t, d1, d1, z)))
  {
    hide Linear, Combined, Bilinear, Trilinear;
    var z, o, x := Combined(d2, s, d3), Origin(|d1|), Curve(d1, d2, d3, s);
    var y := Combined(d1, s, z);
    TrilinearOfZero(t, x, y, o);
    TrilinearCombined(t, o, s, y, x, x);
    TrilinearCombined(t, o, s, y, y, x);
    TrilinearCombined(t, o, s, y, y, y);
    TrilinearCombined(t, d1, s, z, y, y);
    TrilinearCombined(t, d1, s, z, d1, y);
    TrilinearCombined(t, d1, s, z, d1, d1);
  }

  lemma TrilinearOfZero(t: (nat, nat, nat) -> real, x: Vector, y: Vector, o: Vector)
    requires Zero(o)
    ensures Trilinear(t, o, x, x) == Trilinear(t, y, o, x) == Trilinear(t, y, y, o) == 0.0
  {
    ZeroForms(ContractedTwice(t, x, x), (_, _) => 0.0, x, o);
    forall i: nat ensures ContractedTwice(t, o, x)(i) == 0.0 && ContractedTwice(t, y, o)(i) == 0.0 {
      ZeroForms(_ => 0.0, Face(t, i), x, o);
      ZeroSecond(Face(t, i), y, o);
    }
    LinearOfZero(ContractedTwice(t, o, x), y);
    LinearOfZero(ContractedTwice(t, y, o), y);
  }

  lemma Expand(s: real, g1: real, g2: real, g3: real, h2: real, h3: real, h4: real, t3: real, t4: real,
               linear: real, bilinear: real, trilinear: real, c2: real, c3: real, r: real)
    requires linear == Times(s, g1 + Times(s, g2 + Times(s, g3)))
    requires bilinear == s * s * (h2 + s * h3 + s * s * h4)
    requires trilinear == s * s * s * (t3 + s * t4)
    requires c2 == g2 + Times(0.5, h2) && c3 == g3 + Times(0.5, h3) + Times(1.0 / 6.0, t3)
    requires r == Times(0.5, h4) + Times(1.0 / 6.0, t4)
    ensures linear + Times(0.5, bilinear) + Times(1.0 / 6.0, trilinear)
         == s * g1 + s * s * c2 + s * s * s * c3 + s * s * s * s * r
  {
  }

  /** The coefficients are those of the powers of `s` in the value of the cubic along the curve. */
  lemma CoefficientsExpandCubic(jet: Jet, d1: Vector, d2: Vector, d3: Vector, s: real)
    requires |d1| == |d2| == |d3|
    ensures Cubic(jet, Curve(d1, d2, d3, s))
         == s * Coefficient(jet, [d1]) + s * s * Coefficient(jet, [d1, d2])
          + s * s * s * Coefficient(jet, [d1, d2, d3]) + s * s * s * s * Remainder(jet, d1, d2, d3, s)
  {
    hide Linear, Bilinear, Trilinear, Combined, Curve, Times;
    var g, h, t, z := jet.gradient, jet.hessian, jet.third, Combined(d2, s, d3);
    var x, y := Curve(d1, d2, d3, s), Combined(d1, s, z);
    LinearAlong(g, d1, d2, d3, s);
    BilinearAlong(h, d1, d2, d3, s);
    TrilinearAlong(t, d1, d2, d3, s);
    Expand(s, Linear(g, d1), Linear(g, d2), Linear(g, d3),
           Bilinear(h, d1, d1), Bilinear(h, d1, d2) + Bilinear(h, d2, d1),
           Bilinear(h, d1, d3) + Bilinear(h, d3, d1) + Bilinear(h, z, z),
           Trilinear(t, d1, d1, d1), Trilinear(t, z, y, y) + Trilinear(t, d1, z, y) + Trilinear(t, d1, d1, z),
           Linear(g, x), Bilinear(h, x, x), Trilinear(t, x, x, x),
           Coefficient(jet, [d1, d2]), Coefficient(jet, [d1, d2, d3]), Remainder(jet, d1, d2, d3, s));
  }

  // ----- coefficients along sparse directions -----

  /** The first direction has entries `a` at `i` and `b` at `j` and no others, and every later one is zero. */
  predicate Sparse(ds: seq<Vector>, i: nat, a: real, j: nat, b: real) {
    && 1 <= |ds| <= 3 && i != j
    && ZeroBut(ds[0], i, j) && At(ds[0], i) == a && At(ds[0], j) == b
    && forall k :: 1 <= k < |ds| ==> Zero(ds[k])
  }

  function SecondForm(h: (nat, nat) -> real, i: nat, a: real, j: nat, b: real): real {
    h(i, i) * a * a + (h(i, j) + h(j, i)) * a * b + h(j, j) * b * b
  }

  function ThirdForm(t: (nat, nat, nat) -> real, i: nat, a: real, j: nat, b: real): real {
    SecondForm(Face(t, i), i, a, j, b) * a + SecondForm(Face(t, j), i, a, j, b) * b
  }

  lemma BilinearSparse(h: (nat, nat) -> real, v: Vector, i: nat, j: nat)
    requires i != j && ZeroBut(v, i, j)
    ensures Bilinear(h, v, v) == SecondForm(h, i, At(v, i), j, At(v, j))
  {
    hide Bilinear, ZeroBut, At;
    BilinearAt(h, v, v, i, j);
  }

  lemma TrilinearSparse(t: (nat, nat, nat) -> real, v: Vector, i: nat, j: nat)
    requires i != j && ZeroBut(v, i, j)
    ensures Trilinear(t, v, v, v) == ThirdForm(t, i, At(v, i), j, At(v, j))
  {
    hide Trilinear, Bilinear, ZeroBut, SecondForm, At;
    TrilinearAt(t, v, i, j);
    BilinearSparse(Face(t, i), v, i, j);
    BilinearSparse(Face(t, j), v, i, j);
  }

  lemma SparseCoefficient(jet: Jet, ds: seq<Vector>, i: nat, a: real, j: nat, b: real)
    requires Sparse(ds, i, a, j, b)
    ensures Coefficient(jet, ds)
         == if |ds| == 1 then jet.gradient(i) * a + jet.gradient(j) * b
            else if |ds| == 2 then SecondForm(jet.hessian, i, a, j, b) / 2.0
            else ThirdForm(jet.third, i, a, j, b) / 6.0
  {
    hide Linear, Bilinear, Trilinear, SecondForm, ThirdForm;
    var d1 := ds[0];
    LinearAt(jet.gradient, d1, i, j);
    BilinearSparse(jet.hessian, d1, i, j);
    TrilinearSparse(jet.third, d1, i, j);
    if |ds| > 1 {
      ZeroForms(jet.gradient, jet.hessian, d1, ds[|ds| - 1]);
      ZeroForms(jet.gradient, jet.hessian, d1, ds[1]);
      ZeroSecond(jet.hessian, d1, ds[1]);
    }
  }

  // ----- the tape -----

  class Tape {
    const domain: nat
    const jet: Jet
    /** The coefficients of the curve, as far as they have been set. */
    var directions: seq<Vector>

    constructor (domain: nat, jet: Jet)
      ensures this.domain == domain && this.jet == jet && directions == []
    {
      this.domain, this.jet, directions := domain, jet, [];
    }

    /** Sets the coefficient of one order, drops the higher ones, and computes the Taylor coefficient. */
    method Forward(order: nat, d: Vector) returns (y: real)
      requires 1 <= order <= 3 && order <= |directions| + 1 && |d| == domain
      modifies this
      ensures directions == old(directions)[..order - 1] + [d]
      ensures y == Coefficient(jet, directions)
    {
      directions := directions[..order - 1] + [d];
      y := Coefficient(jet, directions);
    }
  }

  // ----- derivatives in one variable -----

  /** Setting entries of a zero vector and setting them back. */
  lemma SparseDirections(z: Vector, ds: seq<Vector>, i: nat, a: real, j: nat, b: real)
    requires Zero(z) && i < |z| && i != j && 1 <= |ds| <= 3
    requires ds[0] == (if j < |z| then z[i := a][j := b] else z[i := a]) && (j >= |z| ==> b == 0.0)
    requires forall k :: 1 <= k < |ds| ==> ds[k] == z
    ensures Sparse(ds, i, a, j, b)
  {
  }

  method FirstDerivative(f: Tape, sign: real, dX: array<real>, px: nat) returns (r: real)
    requires dX.Length == f.domain && px < f.domain && Zero(dX[..])
    modifies f, dX
    ensures Zero(dX[..])
    ensures r == sign * f.jet.gradient(px)
  {
    ghost var z := dX[..];
    hide Coefficient, Sparse, Zero;
    dX[px] := 1.0;
    var temp := f.Forward(1, dX[..]);
    UnitDirections(z, f.directions, px);
    SparseCoefficient(f.jet, f.directions, px, 1.0, px + 1, 0.0);
    dX[px] := 0.0;
    Restored(z, px, 1.0);
    assert dX[..] == z[px := 1.0][px := 0.0];
    r := sign * temp;
  }

  method SecondDerivative(f: Tape, sign: real, dX: array<real>, px: nat) returns (r: real)
    requires dX.Length == f.domain && px < f.domain && Zero(dX[..])
    modifies f, dX
    ensures Zero(dX[..])
    ensures r == sign * f.jet.hessian(px, px)
  {
    ghost var z := dX[..];
    hide Coefficient, Sparse, Zero;
    dX[px] := 1.0;
    var _ := f.Forward(1, dX[..]);
    dX[px] := 0.0;
    Restored(z, px, 1.0);
    assert dX[..] == z[px := 1.0][px := 0.0];
    var y := f.Forward(2, dX[..]);
    UnitDirections(z, f.directions, px);
    SparseCoefficient(f.jet, f.directions, px, 1.0, px + 1, 0.0);
    r := sign * 2.0 * y;
  }

  method ThirdDerivative(f: Tape, sign: real, dX: array<real>, px: nat) returns (r: real)
    requires dX.Length == f.domain && px < f.domain && Zero(dX[..])
    modifies f, dX
    ensures Zero(dX[..])
    ensures r == sign * f.jet.third(px, px, px)
  {
    ghost var z := dX[..];
    hide Coefficient, Sparse, Zero;
    dX[px] := 1.0;
    var _ := f.Forward(1, dX[..]);
    dX[px] := 0.0;
    Restored(z, px, 1.0);
    assert dX[..] == z[px := 1.0][px := 0.0];
    var _ := f.Forward(2, dX[..]);
    var y := f.Forward(3, dX[..]);
    UnitDirections(z, f.directions, px);
    SparseCoefficient(f.jet, f.directions, px, 1.0, px + 1, 0.0);
    r := sign * 6.0 * y;
  }

  lemma Restored(z: Vector, i: nat, a: real)
    requires Zero(z) && i < |z|
    ensures z[i := a][i := 0.0] == z
  {
  }

  lemma UnitDirections(z: Vector, ds: seq<Vector>, i: nat)
    requires Zero(z) && i < |z| && 1 <= |ds| <= 3 && ds[0] == z[i := 1.0]
    requires forall k :: 1 <= k < |ds| ==> ds[k] == z
    ensures Sparse(ds, i, 1.0, i + 1, 0.0)
  {
    if i + 1 < |z| {
      assert z[i := 1.0][i + 1 := 0.0] == z[i := 1.0];
    }
    SparseDirections(z, ds, i, 1.0, i + 1, 0.0);
  }

  // ----- mixed derivatives -----

  /** The second derivative of the function along the direction with entries `a` and `b`. */
  method SecondAlong(f: Tape, dX: array<real>, px: nat, a: real, pxn: nat, b: real) returns (y: real)
    requires dX.Length == f.domain && px < f.domain && pxn < f.domain && px != pxn && Zero(dX[..])
    modifies f, dX
    ensures Zero(dX[..])
    ensures y == SecondForm(f.jet.hessian, px, a, pxn, b)
  {
    ghost var z := dX[..];
    hide Coefficient, Sparse, Zero, SecondForm;
    dX[px], dX[pxn] := a, b;
    assert dX[..] == z[px := a][pxn := b];
    var _ := f.Forward(1, dX[..]);
    dX[px], dX[pxn] := 0.0, 0.0;
    BothRestored(z, px, a, pxn, b);
    assert dX[..] == z[px := a][pxn := b][px := 0.0][pxn := 0.0];
    y := f.Forward(2, dX[..]);
    SparseDirections(z, f.directions, px, a, pxn, b);
    SparseCoefficient(f.jet, f.directions, px, a, pxn, b);
    y := 2.0 * y;
  }

  method ThirdAlong(f: Tape, dX: array<real>, px: nat, a: real, pxn: nat, b: real) returns (y: real)
    requires dX.Length == f.domain && px < f.domain && pxn < f.domain && px != pxn && Zero(dX[..])
    modifies f, dX
    ensures Zero(dX[..])
    ensures y == ThirdForm(f.jet.third, px, a, pxn, b)
  {
    ghost var z := dX[..];
    hide Coefficient, Sparse, Zero, ThirdForm;
    dX[px], dX[pxn] := a, b;
    assert dX[..] == z[px := a][pxn := b];
    var _ := f.Forward(1, dX[..]);
    dX[px], dX[pxn] := 0.0, 0.0;
    BothRestored(z, px, a, pxn, b);
    assert dX[..] == z[px := a][pxn := b][px := 0.0][pxn := 0.0];
    var _ := f.Forward(2, dX[..]);
    y := f.Forward(3, dX[..]);
    SparseDirections(z, f.directions, px, a, pxn, b);
    SparseCoefficient(f.jet, f.directions, px, a, pxn, b);
    y := 6.0 * y;
  }

  lemma BothRestored(z: Vector, i: nat, a: real, j: nat, b: real)
    requires Zero(z) && i < |z| && j < |z| && i != j
    ensures z[i := a][j := b][i := 0.0][j := 0.0] == z
  {
  }

  /** Polarisation: the mixed second derivative from the second derivatives along the sum and the difference. */
  method MixedSecond(f: Tape, sign: real, dX: array<real>, px: nat, pxn: nat) returns (r: real)
    requires dX.Length == f.domain && px < f.domain && pxn < f.domain && px != pxn && Zero(dX[..])
    requires f.jet.Symmetric()
    modifies f, dX
    ensures Zero(dX[..])
    ensures r == sign * f.jet.hessian(px, pxn)
  {
    var dzdz := SecondAlong(f, dX, px, 1.0, pxn, 1.0);
    var dwdw := SecondAlong(f, dX, px, 1.0, pxn, -1.0);
    r := sign * (dzdz - dwdw) / 4.0;
  }

  /** Polarisation of the third order: once in the first variable and twice in the second. */
  method MixedThird(f: Tape, sign: real, dX: array<real>, px: nat, pxn: nat) returns (r: real)
    requires dX.Length == f.domain && px < f.domain && pxn < f.domain && px != pxn && Zero(dX[..])
    requires f.jet.Symmetric()
    modifies f, dX
    ensures Zero(dX[..])
    ensures r == sign * f.jet.third(px, pxn, pxn)
  {
    var dz3 := ThirdAlong(f, dX, px, 1.0, pxn, 1.0);
    var dw3 := ThirdAlong(f, dX, px, -1.0, pxn, 1.0);
    var dy3 := ThirdAlong(f, dX, px, 1.0, pxn, 0.0);
    r := sign * (dz3 - dw3 - 2.0 * dy3) / 6.0;
  }

  // ----- the calculators -----

  method CalculateFirst(f: Tape, sign: real) returns (results: array<real>)
    modifies f
    ensures fresh(results) && results.Length == f.domain
    ensures forall i: nat :: i < f.domain ==> results[i] == sign * f.jet.gradient(i)
  {
    results := new real[f.domain];
    var dX := new real[f.domain](_ => 0.0);
    for px := 0 to f.domain
      invariant Zero(dX[..])
      invariant forall i: nat :: i < px ==> results[i] == sign * f.jet.gradient(i)
    {
      var r := FirstDerivative(f, sign, dX, px);
      results[px] := r;
    }
  }

  method CalculateSecond(f: Tape, sign: real) returns (results: array<real>)
    modifies f
    ensures fresh(results) && results.Length == f.domain
    ensures forall i: nat :: i < f.domain ==> results[i] == sign * f.jet.hessian(i, i)
  {
    results := new real[f.domain];
    var dX := new real[f.domain](_ => 0.0);
    for px := 0 to f.domain
      invariant Zero(dX[..])
      invariant forall i: nat :: i < px ==> results[i] == sign * f.jet.hessian(i, i)
    {
      var r := SecondDerivative(f, sign, dX, px);
      results[px] := r;
    }
  }

  method CalculateThird(f: Tape, sign: real) returns (results: array<real>)
    modifies f
    ensures fresh(results) && results.Length == f.domain
    ensures forall i: nat :: i < f.domain ==> results[i] == sign * f.jet.third(i, i, i)
  {
    results := new real[f.domain];
    var dX := new real[f.domain](_ => 0.0);
    for px := 0 to f.domain
      invariant Zero(dX[..])
      invariant forall i: nat :: i < px ==> results[i] == sign * f.jet.third(i, i, i)
    {
      var r := ThirdDerivative(f, sign, dX, px);
      results[px] := r;
    }
  }

  /** Derivatives with respect to the variables `i` and `n + i`, whatever the other derivatives are. */
  method CalculateMixedSecond(f: Tape, sign: real) returns (results: array<real>)
    requires f.jet.Symmetric()
    modifies f
    ensures fresh(results) && results.Length == f.domain / 2
    ensures forall i: nat :: i < f.domain / 2 ==> results[i] == sign * f.jet.hessian(i, f.domain / 2 + i)
  {
    var n := f.domain / 2;
    results := new real[n];
    var dX := new real[f.domain](_ => 0.0);
    for px := 0 to n
      invariant Zero(dX[..])
      invariant forall i: nat :: i < px ==> results[i] == sign * f.jet.hessian(i, n + i)
    {
      var r := MixedSecond(f, sign, dX, px, n + px);
      results[px] := r;
    }
  }

  method CalculateMixedThird(f: Tape, sign: real) returns (results: array<real>)
    requires f.jet.Symmetric()
    modifies f
    ensures fresh(results) && results.Length == f.domain / 2
    ensures forall i: nat :: i < f.domain / 2 ==>
      results[i] == sign * f.jet.third(i, f.domain / 2 + i, f.domain / 2 + i)
  {
    var n := f.domain / 2;
    results := new real[n];
    var dX := new real[f.domain](_ => 0.0);
    for px := 0 to n
      invariant Zero(dX[..])
      invariant forall i: nat :: i < px ==> results[i] == sign * f.jet.third(i, n + i, n + i)
    {
      var r := MixedThird(f, sign, dX, px, n + px);
      results[px] := r;
    }
  }
}
