/** Matrices over the reals: sums, products and powers (ql/math/matrix.hpp). */
module Matrices {
  import opened RealArithmetic
  import opened Results

  // ----- finite sums -----

  function Sum(f: nat -> real, n: nat): real {
    if n == 0 then 0.0 else Sum(f, n - 1) + f(n - 1)
  }

  lemma {:induction false} SumEqual(f: nat -> real, g: nat -> real, n: nat)
    requires forall k: nat :: k < n ==> f(k) == g(k)
    ensures Sum(f, n) == Sum(g, n)
  {
    if n > 0 {
      SumEqual(f, g, n - 1);
    }
  }

  lemma {:induction false} SumScaled(f: nat -> real, x: real, g: nat -> real, n: nat)
    requires forall k: nat :: k < n ==> g(k) == Times(x, f(k))
    ensures Sum(g, n) == Times(x, Sum(f, n))
  {
    if n > 0 {
      SumScaled(f, x, g, n - 1);
      TimesDistributes(Sum(f, n - 1), f(n - 1), x);
    }
  }

  lemma {:induction false} SumAdded(f: nat -> real, g: nat -> real, h: nat -> real, n: nat)
    requires forall k: nat :: k < n ==> h(k) == f(k) + g(k)
    ensures Sum(h, n) == Sum(f, n) + Sum(g, n)
  {
    if n > 0 {
      SumAdded(f, g, h, n - 1);
    }
  }

  lemma {:induction false} SumOfZeros(f: nat -> real, n: nat)
    requires forall k: nat :: k < n ==> f(k) == 0.0
    ensures Sum(f, n) == 0.0
  {
    if n > 0 {
      SumOfZeros(f, n - 1);
    }
  }

  lemma {:induction false} SumOfOne(f: nat -> real, i: nat, n: nat)
    requires i < n && forall k: nat :: k < n && k != i ==> f(k) == 0.0
    ensures Sum(f, n) == f(i)
  {
    if i == n - 1 {
      SumOfZeros(f, n - 1);
    } else {
      SumOfOne(f, i, n - 1);
    }
  }

  function RowSums(t: (nat, nat) -> real, n: nat): nat -> real {
    (k: nat) => Sum((l: nat) => t(k, l), n)
  }

  function ColumnSums(t: (nat, nat) -> real, m: nat): nat -> real {
    (l: nat) => Sum((k: nat) => t(k, l), m)
  }

  /** A double sum can be taken in either order. */
  lemma {:induction false} SumsSwap(t: (nat, nat) -> real, m: nat, n: nat)
    ensures Sum(RowSums(t, n), m) == Sum(ColumnSums(t, m), n)
  {
    if m == 0 {
      SumOfZeros(ColumnSums(t, 0), n);
    } else {
      SumsSwap(t, m - 1, n);
      var last := (l: nat) => t(m - 1, l);
      forall l: nat | l < n ensures ColumnSums(t, m)(l) == ColumnSums(t, m - 1)(l) + last(l) {
      }
      SumAdded(ColumnSums(t, m - 1), last, ColumnSums(t, m), n);
      assert RowSums(t, n)(m - 1) == Sum(last, n);
    }
  }

  // ----- matrices -----

  type Grid = seq<seq<real>>

  predicate Rectangular(m: Grid, rows: nat, columns: nat) {
    |m| == rows && forall i :: 0 <= i < rows ==> |m[i]| == columns
  }

  function At(m: Grid, i: nat, j: nat): real {
    if i < |m| && j < |m[i]| then m[i][j] else 0.0
  }

  function Build(rows: nat, columns: nat, f: (nat, nat) -> real): (m: Grid)
    ensures Rectangular(m, rows, columns)
    ensures forall i: nat, j: nat :: i < rows && j < columns ==> At(m, i, j) == f(i, j)
  {
    seq(rows, (i: nat) => seq(columns, (j: nat) => f(i, j)))
  }

  lemma SameEntries(a: Grid, b: Grid, rows: nat, columns: nat)
    requires Rectangular(a, rows, columns) && Rectangular(b, rows, columns)
    requires forall i: nat, j: nat :: i < rows && j < columns ==> At(a, i, j) == At(b, i, j)
    ensures a == b
  {
    forall i | 0 <= i < rows ensures a[i] == b[i] {
      forall j | 0 <= j < columns ensures a[i][j] == b[i][j] {
        assert At(a, i, j) == At(b, i, j);
      }
    }
  }

  function MatrixSum(a: Grid, b: Grid, rows: nat, columns: nat): (m: Grid)
    ensures Rectangular(m, rows, columns)
  {
    Build(rows, columns, (i: nat, j: nat) => At(a, i, j) + At(b, i, j))
  }

  function ScaledMatrix(x: real, a: Grid, rows: nat, columns: nat): (m: Grid)
    ensures Rectangular(m, rows, columns)
  {
    Build(rows, columns, (i: nat, j: nat) => Times(x, At(a, i, j)))
  }

  /** The terms of the entry of a product. */
  function Terms(a: Grid, b: Grid, i: nat, j: nat): nat -> real {
    (k: nat) => Times(At(a, i, k), At(b, k, j))
  }

  function MatrixProduct(a: Grid, b: Grid, rows: nat, inner: nat, columns: nat): (m: Grid)
    ensures Rectangular(m, rows, columns)
  {
    Build(rows, columns, (i: nat, j: nat) => Sum(Terms(a, b, i, j), inner))
  }

  function Triples(a: Grid, b: Grid, c: Grid, i: nat, j: nat): (nat, nat) -> real {
    (k: nat, l: nat) => Times(Times(At(a, i, l), At(b, l, k)), At(c, k, j))
  }

  lemma EntryOfLeft(a: Grid, b: Grid, c: Grid, i: nat, j: nat, m: nat, n: nat, p: nat, q: nat)
    requires i < m && j < q
    ensures At(MatrixProduct(MatrixProduct(a, b, m, n, p), c, m, p, q), i, j)
         == Sum(RowSums(Triples(a, b, c, i, j), n), p)
  {
    hide Times;
    var t, ab := Triples(a, b, c, i, j), MatrixProduct(a, b, m, n, p);
    forall k: nat | k < p ensures Terms(ab, c, i, j)(k) == RowSums(t, n)(k) {
      TimesCommutes(At(ab, i, k), At(c, k, j));
      forall l: nat ensures t(k, l) == Times(At(c, k, j), Terms(a, b, i, k)(l)) {
        TimesCommutes(Times(At(a, i, l), At(b, l, k)), At(c, k, j));
      }
      SumScaled(Terms(a, b, i, k), At(c, k, j), (l: nat) => t(k, l), n);
    }
    SumEqual(Terms(ab, c, i, j), RowSums(t, n), p);
  }

  lemma TimesCommutes(x: real, y: real)
    ensures Times(x, y) == Times(y, x)
  {
  }

  lemma EntryOfRight(a: Grid, b: Grid, c: Grid, i: nat, j: nat, m: nat, n: nat, p: nat, q: nat)
    requires i < m && j < q
    ensures At(MatrixProduct(a, MatrixProduct(b, c, n, p, q), m, n, q), i, j)
         == Sum(ColumnSums(Triples(a, b, c, i, j), p), n)
  {
    hide Times;
    var t, bc := Triples(a, b, c, i, j), MatrixProduct(b, c, n, p, q);
    forall l: nat | l < n ensures Terms(a, bc, i, j)(l) == ColumnSums(t, p)(l) {
      forall k: nat ensures t(k, l) == Times(At(a, i, l), Terms(b, c, l, j)(k)) {
        TimesAssociative(At(a, i, l), At(b, l, k), At(c, k, j));
      }
      SumScaled(Terms(b, c, l, j), At(a, i, l), (k: nat) => t(k, l), p);
    }
    SumEqual(Terms(a, bc, i, j), ColumnSums(t, p), n);
  }

  /** The product is associative, for all sizes that fit. */
  lemma ProductAssociates(a: Grid, b: Grid, c: Grid, m: nat, n: nat, p: nat, q: nat)
    ensures MatrixProduct(MatrixProduct(a, b, m, n, p), c, m, p, q)
         == MatrixProduct(a, MatrixProduct(b, c, n, p, q), m, n, q)
  {
    var left := MatrixProduct(MatrixProduct(a, b, m, n, p), c, m, p, q);
    var right := MatrixProduct(a, MatrixProduct(b, c, n, p, q), m, n, q);
    forall i: nat, j: nat | i < m && j < q ensures At(left, i, j) == At(right, i, j) {
      EntryOfLeft(a, b, c, i, j, m, n, p, q);
      EntryOfRight(a, b, c, i, j, m, n, p, q);
      SumsSwap(Triples(a, b, c, i, j), p, n);
    }
    SameEntries(left, right, m, q);
  }

  // ----- square matrices -----

  predicate Square(m: Grid, n: nat) {
    Rectangular(m, n, n)
  }

  function Null(n: nat): (m: Grid)
    ensures Square(m, n)
  {
    Build(n, n, (_: nat, _: nat) => 0.0)
  }

  function Identity(n: nat): (m: Grid)
    ensures Square(m, n)
  {
    Build(n, n, (i: nat, j: nat) => if i == j then 1.0 else 0.0)
  }

  function Plus(a: Grid, b: Grid, n: nat): (m: Grid)
    ensures Square(m, n)
  {
    MatrixSum(a, b, n, n)
  }

  function Scaled(x: real, a: Grid, n: nat): (m: Grid)
    ensures Square(m, n)
  {
    ScaledMatrix(x, a, n, n)
  }

  function Product(a: Grid, b: Grid, n: nat): (m: Grid)
    ensures Square(m, n)
  {
    MatrixProduct(a, b, n, n, n)
  }

  function Power(a: Grid, k: nat, n: nat): (p: Grid)
    ensures Square(p, n)
  {
    if k == 0 then Identity(n) else Product(a, Power(a, k - 1, n), n)
  }

  lemma IdentityIsNeutral(a: Grid, n: nat)
    requires Square(a, n)
    ensures Product(Identity(n), a, n) == a && Product(a, Identity(n), n) == a
  {
    forall i: nat, j: nat | i < n && j < n
      ensures At(Product(Identity(n), a, n), i, j) == At(a, i, j) == At(Product(a, Identity(n), n), i, j)
    {
      SumOfOne(Terms(Identity(n), a, i, j), i, n);
      SumOfOne(Terms(a, Identity(n), i, j), j, n);
    }
    SameEntries(Product(Identity(n), a, n), a, n, n);
    SameEntries(Product(a, Identity(n), n), a, n, n);
  }

  /** A matrix commutes with its powers. */
  lemma {:induction false} PowersCommute(a: Grid, k: nat, n: nat)
    requires Square(a, n)
    ensures Product(Power(a, k, n), a, n) == Product(a, Power(a, k, n), n)
  {
    if k == 0 {
      IdentityIsNeutral(a, n);
    } else {
      PowersCommute(a, k - 1, n);
      ProductAssociates(a, Power(a, k - 1, n), a, n, n, n, n);
    }
  }

  lemma ProductOfSum(a: Grid, b: Grid, c: Grid, n: nat)
    ensures Product(Plus(a, b, n), c, n) == Plus(Product(a, c, n), Product(b, c, n), n)
  {
    hide Times;
    forall i: nat, j: nat | i < n && j < n
      ensures At(Product(Plus(a, b, n), c, n), i, j) == At(Plus(Product(a, c, n), Product(b, c, n), n), i, j)
    {
      forall k: nat | k < n ensures Terms(Plus(a, b, n), c, i, j)(k) == Terms(a, c, i, j)(k) + Terms(b, c, i, j)(k) {
        TimesDistributes(At(a, i, k), At(b, i, k), At(c, k, j));
      }
      SumAdded(Terms(a, c, i, j), Terms(b, c, i, j), Terms(Plus(a, b, n), c, i, j), n);
    }
    SameEntries(Product(Plus(a, b, n), c, n), Plus(Product(a, c, n), Product(b, c, n), n), n, n);
  }

  lemma ProductOfScaled(x: real, a: Grid, y: real, c: Grid, n: nat)
    ensures Product(Scaled(x, a, n), Scaled(y, c, n), n) == Scaled(Times(x, y), Product(a, c, n), n)
  {
    hide Times;
    forall i: nat, j: nat | i < n && j < n
      ensures At(Product(Scaled(x, a, n), Scaled(y, c, n), n), i, j)
           == At(Scaled(Times(x, y), Product(a, c, n), n), i, j)
    {
      forall k: nat | k < n
        ensures Terms(Scaled(x, a, n), Scaled(y, c, n), i, j)(k) == Times(Times(x, y), Terms(a, c, i, j)(k))
      {
        ProductOfProducts(x, At(a, i, k), y, At(c, k, j));
      }
      SumScaled(Terms(a, c, i, j), Times(x, y), Terms(Scaled(x, a, n), Scaled(y, c, n), i, j), n);
    }
    SameEntries(Product(Scaled(x, a, n), Scaled(y, c, n), n), Scaled(Times(x, y), Product(a, c, n), n), n, n);
  }

  lemma ProductOfProducts(x: real, a: real, y: real, c: real)
    ensures Times(Times(x, a), Times(y, c)) == Times(Times(x, y), Times(a, c))
  {
  }

  // ----- matrices in memory -----

  datatype MatrixError = SizeMismatch

  function Values(m: array2<real>): (v: Grid)
    reads m
    ensures Rectangular(v, m.Length0, m.Length1)
    ensures forall i: nat, j: nat :: i < m.Length0 && j < m.Length1 ==> At(v, i, j) == m[i, j]
  {
    seq(m.Length0, i requires 0 <= i < m.Length0 reads m =>
      seq(m.Length1, j requires 0 <= j < m.Length1 reads m => m[i, j]))
  }

  method Copied(m: array2<real>) returns (result: array2<real>)
    ensures fresh(result) && result.Length0 == m.Length0 && result.Length1 == m.Length1
    ensures Values(result) == Values(m)
  {
    result := new real[m.Length0, m.Length1];
    forall i, j | 0 <= i < m.Length0 && 0 <= j < m.Length1 {
      result[i, j] := m[i, j];
    }
    SameEntries(Values(result), Values(m), m.Length0, m.Length1);
  }

  method ScaleInPlace(m: array2<real>, x: real)
    modifies m
    ensures Values(m) == ScaledMatrix(x, old(Values(m)), m.Length0, m.Length1)
  {
    for i := 0 to m.Length0
      invariant forall k: nat, l: nat :: k < m.Length0 && l < m.Length1 ==>
        m[k, l] == if k < i then Times(x, old(m[k, l])) else old(m[k, l])
    {
      for j := 0 to m.Length1
        invariant forall k: nat, l: nat :: k < m.Length0 && l < m.Length1 ==>
          m[k, l] == if k < i || (k == i && l < j) then Times(x, old(m[k, l])) else old(m[k, l])
      {
        m[i, j] := Times(x, m[i, j]);
      }
    }
    SameEntries(Values(m), ScaledMatrix(x, old(Values(m)), m.Length0, m.Length1), m.Length0, m.Length1);
  }

  /** Adds a matrix, which may be the same object, to one of the same size. */
  method AddInPlace(m: array2<real>, a: array2<real>) returns (r: Option<MatrixError>)
    modifies m
    ensures r.Some? <==> m.Length0 != a.Length0 || m.Length1 != a.Length1
    ensures Values(m)
         == if r.None? then MatrixSum(old(Values(m)), old(Values(a)), m.Length0, m.Length1) else old(Values(m))
  {
    if m.Length0 != a.Length0 || m.Length1 != a.Length1 {
      return Some(SizeMismatch);
    }
    for i := 0 to m.Length0
      invariant forall k: nat, l: nat :: k < m.Length0 && l < m.Length1 ==>
        && m[k, l] == (if k < i then old(m[k, l]) + old(a[k, l]) else old(m[k, l]))
        && (k >= i || a != m ==> a[k, l] == old(a[k, l]))
    {
      for j := 0 to m.Length1
        invariant forall k: nat, l: nat :: k < m.Length0 && l < m.Length1 ==>
          && m[k, l] == (if k < i || (k == i && l < j) then old(m[k, l]) + old(a[k, l]) else old(m[k, l]))
          && (k > i || (k == i && l >= j) || a != m ==> a[k, l] == old(a[k, l]))
      {
        m[i, j] := m[i, j] + a[i, j];
      }
    }
    SameEntries(Values(m), MatrixSum(old(Values(m)), old(Values(a)), m.Length0, m.Length1), m.Length0, m.Length1);
    return None;
  }

  /** The entry of a product when the rows before `i` are complete, row `i` has its first `k` terms, and its entries
      before column `j` one more. */
  function Partial(a: Grid, b: Grid, inner: nat, row: nat, column: nat, i: nat, k: nat, j: nat): real {
    Sum(Terms(a, b, row, column), if row < i then inner else if row > i then 0 else if column < j then k + 1 else k)
  }

  lemma NextTerm(a: Grid, b: Grid, inner: nat, i: nat, k: nat, j: nat)
    ensures Partial(a, b, inner, i, j, i, k, j + 1)
         == Partial(a, b, inner, i, j, i, k, j) + Times(At(a, i, k), At(b, k, j))
  {
    hide Times;
  }

  lemma NextRound(a: Grid, b: Grid, inner: nat, row: nat, column: nat, i: nat, k: nat, columns: nat)
    requires column < columns
    ensures Partial(a, b, inner, row, column, i, k, columns) == Partial(a, b, inner, row, column, i, k + 1, 0)
    ensures Partial(a, b, inner, row, column, i, inner, 0) == Partial(a, b, inner, row, column, i + 1, 0, 0)
    ensures Partial(a, b, inner, row, column, 0, 0, 0) == 0.0
    ensures row < i ==> Partial(a, b, inner, row, column, i, 0, 0) == Sum(Terms(a, b, row, column), inner)
  {
  }

  method Multiply(m1: array2<real>, m2: array2<real>) returns (r: Result<array2<real>, MatrixError>)
    ensures r.Failure? <==> m1.Length1 != m2.Length0
    ensures r.Success? ==>
      && fresh(r.value) && r.value.Length0 == m1.Length0 && r.value.Length1 == m2.Length1
      && Values(r.value) == MatrixProduct(Values(m1), Values(m2), m1.Length0, m1.Length1, m2.Length1)
  {
    if m1.Length1 != m2.Length0 {
      return Failure(SizeMismatch);
    }
    var rows, inner, columns := m1.Length0, m1.Length1, m2.Length1;
    ghost var a, b := Values(m1), Values(m2);
    hide Partial, Times;
    var result := new real[rows, columns]((_, _) => 0.0);
    forall row: nat, column: nat | row < rows && column < columns
      ensures result[row, column] == Partial(a, b, inner, row, column, 0, 0, 0)
    {
      NextRound(a, b, inner, row, column, 0, 0, columns);
    }
    for i := 0 to rows
      invariant forall row: nat, column: nat :: row < rows && column < columns ==>
        result[row, column] == Partial(a, b, inner, row, column, i, 0, 0)
    {
      for k := 0 to inner
        invariant forall row: nat, column: nat :: row < rows && column < columns ==>
          result[row, column] == Partial(a, b, inner, row, column, i, k, 0)
      {
        AddTerms(result, m1, m2, i, k);
        forall row: nat, column: nat | row < rows && column < columns
          ensures result[row, column] == Partial(a, b, inner, row, column, i, k + 1, 0)
        {
          NextRound(a, b, inner, row, column, i, k, columns);
        }
      }
      forall row: nat, column: nat | row < rows && column < columns
        ensures result[row, column] == Partial(a, b, inner, row, column, i + 1, 0, 0)
      {
        NextRound(a, b, inner, row, column, i, 0, columns);
      }
    }
    forall row: nat, column: nat | row < rows && column < columns
      ensures At(Values(result), row, column) == Sum(Terms(a, b, row, column), inner)
    {
      NextRound(a, b, inner, row, column, rows, 0, columns);
    }
    SameEntries(Values(result), MatrixProduct(a, b, rows, inner, columns), rows, columns);
    return Success(result);
  }

  /** The innermost loop: one more term for every entry of a row. */
  method AddTerms(result: array2<real>, m1: array2<real>, m2: array2<real>, i: nat, k: nat)
    requires result.Length0 == m1.Length0 && result.Length1 == m2.Length1 && m1.Length1 == m2.Length0
    requires i < m1.Length0 && k < m1.Length1 && result != m1 && result != m2
    requires forall row: nat, column: nat :: row < result.Length0 && column < result.Length1 ==>
      result[row, column] == Partial(Values(m1), Values(m2), m1.Length1, row, column, i, k, 0)
    modifies result
    ensures forall row: nat, column: nat :: row < result.Length0 && column < result.Length1 ==>
      result[row, column] == Partial(Values(m1), Values(m2), m1.Length1, row, column, i, k, result.Length1)
  {
    ghost var a, b, inner := Values(m1), Values(m2), m1.Length1;
    hide Partial, Times;
    for j := 0 to result.Length1
      invariant forall row: nat, column: nat :: row < result.Length0 && column < result.Length1 ==>
        result[row, column] == Partial(a, b, inner, row, column, i, k, j)
    {
      NextTerm(a, b, inner, i, k, j);
      forall row: nat, column: nat | row < result.Length0 && column < result.Length1 && (row != i || column != j)
        ensures Partial(a, b, inner, row, column, i, k, j + 1) == Partial(a, b, inner, row, column, i, k, j)
      {
        OtherEntry(a, b, inner, row, column, i, k, j);
      }
      result[i, j] := result[i, j] + Times(m1[i, k], m2[k, j]);
    }
  }

  lemma OtherEntry(a: Grid, b: Grid, inner: nat, row: nat, column: nat, i: nat, k: nat, j: nat)
    requires row != i || column != j
    ensures Partial(a, b, inner, row, column, i, k, j + 1) == Partial(a, b, inner, row, column, i, k, j)
  {
  }
}
