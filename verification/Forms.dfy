/** Linear, bilinear and trilinear forms on real vectors, and the Taylor coefficients of a function along a path. */
module Forms {
  import opened RealArithmetic

  type Vector = seq<real>

  // ----- forms -----

  function Linear(g: nat -> real, v: Vector): real {
    if v == [] then 0.0
    else
      var k := |v| - 1;
      Linear(g, v[..k]) + Times(g(k), v[k])
  }

  function Row(h: (nat, nat) -> real, i: nat): nat -> real {
    (j: nat) => h(i, j)
  }

  function Contracted(h: (nat, nat) -> real, v: Vector): nat -> real {
    (i: nat) => Linear(Row(h, i), v)
  }

  /** The double sum of `h(i, j) * u[i] * v[j]`. */
  function Bilinear(h: (nat, nat) -> real, u: Vector, v: Vector): real {
    Linear(Contracted(h, v), u)
  }

  function Face(t: (nat, nat, nat) -> real, i: nat): (nat, nat) -> real {
    (j: nat, k: nat) => t(i, j, k)
  }

  function ContractedTwice(t: (nat, nat, nat) -> real, v: Vector, w: Vector): nat -> real {
    (i: nat) => Bilinear(Face(t, i), v, w)
  }

  /** The triple sum of `t(i, j, k) * u[i] * v[j] * w[k]`. */
  function Trilinear(t: (nat, nat, nat) -> real, u: Vector, v: Vector, w: Vector): real {
    Linear(ContractedTwice(t, v, w), u)
  }

  // ----- forms on sparse vectors -----

  predicate ZeroBut(v: Vector, i: nat, j: nat) {
    forall k :: 0 <= k < |v| && k != i && k != j ==> v[k] == 0.0
  }

  predicate Zero(v: Vector) {
    forall k :: 0 <= k < |v| ==> v[k] == 0.0
  }

  function At(v: Vector, i: nat): real {
    if i < |v| then v[i] else 0.0
  }

  function Pair(g: nat -> real, v: Vector, i: nat, j: nat): real {
    Times(g(i), At(v, i)) + Times(g(j), At(v, j))
  }

  /** A form on a vector with at most two entries is determined by its coefficients there. */
  lemma {:induction false} LinearAt(g: nat -> real, v: Vector, i: nat, j: nat)
    requires ZeroBut(v, i, j) && i != j
    ensures Linear(g, v) == Pair(g, v, i, j)
  {
    if v != [] {
      var k := |v| - 1;
      LinearAt(g, v[..k], i, j);
    }
  }

  lemma BilinearAt(h: (nat, nat) -> real, u: Vector, v: Vector, i: nat, j: nat)
    requires ZeroBut(u, i, j) && ZeroBut(v, i, j) && i != j
    ensures Bilinear(h, u, v)
         == Times(Pair(Row(h, i), v, i, j), At(u, i)) + Times(Pair(Row(h, j), v, i, j), At(u, j))
  {
    hide Linear, Times, At, ZeroBut;
    LinearAt(Contracted(h, v), u, i, j);
    LinearAt(Row(h, i), v, i, j);
    LinearAt(Row(h, j), v, i, j);
  }

  lemma TrilinearAt(t: (nat, nat, nat) -> real, v: Vector, i: nat, j: nat)
    requires ZeroBut(v, i, j) && i != j
    ensures Trilinear(t, v, v, v)
         == Times(Bilinear(Face(t, i), v, v), At(v, i)) + Times(Bilinear(Face(t, j), v, v), At(v, j))
  {
    hide Linear, Times, At, ZeroBut, Bilinear;
    LinearAt(ContractedTwice(t, v, v), v, i, j);
  }

  lemma ZeroForms(g: nat -> real, h: (nat, nat) -> real, u: Vector, v: Vector)
    requires Zero(v)
    ensures Linear(g, v) == 0.0 && Bilinear(h, v, u) == 0.0
  {
    LinearAt(g, v, 0, 1);
    LinearAt(Contracted(h, u), v, 0, 1);
  }

  lemma {:induction false} LinearOfZero(g: nat -> real, u: Vector)
    requires forall i: nat :: g(i) == 0.0
    ensures Linear(g, u) == 0.0
  {
    if u != [] {
      LinearOfZero(g, u[..|u| - 1]);
    }
  }

  lemma ZeroSecond(h: (nat, nat) -> real, u: Vector, v: Vector)
    requires Zero(v)
    ensures Bilinear(h, u, v) == 0.0
  {
    forall i: nat ensures Contracted(h, v)(i) == 0.0 {
      LinearAt(Row(h, i), v, 0, 1);
    }
    LinearOfZero(Contracted(h, v), u);
  }

  // ----- multilinearity -----

  /** The vector `u + a * v`. */
  function Combined(u: Vector, a: real, v: Vector): (r: Vector)
    requires |u| == |v|
    ensures |r| == |u|
  {
    seq(|u|, i requires 0 <= i < |u| => u[i] + Times(a, v[i]))
  }

  lemma CombinedPrefix(u: Vector, a: real, v: Vector, k: nat)
    requires |u| == |v| == k + 1
    ensures Combined(u, a, v)[..k] == Combined(u[..k], a, v[..k])
    ensures Combined(u, a, v)[k] == u[k] + Times(a, v[k])
  {
  }

  lemma Rearranged(x: real, u: real, a: real, v: real)
    ensures Times(x, u + Times(a, v)) == Times(x, u) + Times(a, Times(x, v))
    ensures Times(u + Times(a, v), x) == Times(u, x) + Times(a, Times(v, x))
    ensures Times(a, u + v) == Times(a, u) + Times(a, v)
  {
  }

  lemma {:induction false} LinearCombined(g: nat -> real, u: Vector, a: real, v: Vector)
    requires |u| == |v|
    ensures Linear(g, Combined(u, a, v)) == Linear(g, u) + Times(a, Linear(g, v))
  {
    if u != [] {
      hide Combined, Times;
      var k := |u| - 1;
      CombinedPrefix(u, a, v, k);
      LinearCombined(g, u[..k], a, v[..k]);
      Rearranged(g(k), u[k], a, v[k]);
      Rearranged(0.0, Linear(g, v[..k]), a, Times(g(k), v[k]));
    }
  }

  lemma {:induction false} LinearOfCombined(f: nat -> real, g: nat -> real, a: real, h: nat -> real, u: Vector)
    requires forall i: nat :: f(i) == g(i) + Times(a, h(i))
    ensures Linear(f, u) == Linear(g, u) + Times(a, Linear(h, u))
  {
    if u != [] {
      hide Times;
      var k := |u| - 1;
      LinearOfCombined(f, g, a, h, u[..k]);
      Rearranged(u[k], g(k), a, h(k));
      Rearranged(0.0, Linear(h, u[..k]), a, Times(h(k), u[k]));
    }
  }

  lemma BilinearCombinedFirst(h: (nat, nat) -> real, u: Vector, a: real, v: Vector, w: Vector)
    requires |u| == |v|
    ensures Bilinear(h, Combined(u, a, v), w) == Bilinear(h, u, w) + Times(a, Bilinear(h, v, w))
  {
    LinearCombined(Contracted(h, w), u, a, v);
  }

  lemma BilinearCombinedSecond(h: (nat, nat) -> real, u: Vector, a: real, v: Vector, w: Vector)
    requires |u| == |v|
    ensures Bilinear(h, w, Combined(u, a, v)) == Bilinear(h, w, u) + Times(a, Bilinear(h, w, v))
  {
    hide Times, Linear, Combined;
    var c := Combined(u, a, v);
    forall i: nat ensures Contracted(h, c)(i) == Contracted(h, u)(i) + Times(a, Contracted(h, v)(i)) {
      LinearCombined(Row(h, i), u, a, v);
    }
    LinearOfCombined(Contracted(h, c), Contracted(h, u), a, Contracted(h, v), w);
  }

  lemma TrilinearCombined(t: (nat, nat, nat) -> real, u: Vector, a: real, v: Vector, x: Vector, y: Vector)
    requires |u| == |v|
    ensures Trilinear(t, Combined(u, a, v), x, y) == Trilinear(t, u, x, y) + Times(a, Trilinear(t, v, x, y))
    ensures Trilinear(t, x, Combined(u, a, v), y) == Trilinear(t, x, u, y) + Times(a, Trilinear(t, x, v, y))
    ensures Trilinear(t, x, y, Combined(u, a, v)) == Trilinear(t, x, y, u) + Times(a, Trilinear(t, x, y, v))
  {
    hide Times, Linear, Combined, Bilinear;
    var c := Combined(u, a, v);
    LinearCombined(ContractedTwice(t, x, y), u, a, v);
    forall i: nat
      ensures ContractedTwice(t, c, y)(i) == ContractedTwice(t, u, y)(i) + Times(a, ContractedTwice(t, v, y)(i))
      ensures ContractedTwice(t, y, c)(i) == ContractedTwice(t, y, u)(i) + Times(a, ContractedTwice(t, y, v)(i))
    {
      BilinearCombinedFirst(Face(t, i), u, a, v, y);
      BilinearCombinedSecond(Face(t, i), u, a, v, y);
    }
    LinearOfCombined(ContractedTwice(t, c, y), ContractedTwice(t, u, y), a, ContractedTwice(t, v, y), x);
    LinearOfCombined(ContractedTwice(t, y, c), ContractedTwice(t, y, u), a, ContractedTwice(t, y, v), x);
  }
}
