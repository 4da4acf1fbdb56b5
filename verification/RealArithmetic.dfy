/** Exact real arithmetic. Products and quotients are named so that proofs can treat them as terms. */
module RealArithmetic {

  function Times(x: real, y: real): real {
    x * y
  }

  function Over(x: real, y: real): real
    requires y != 0.0
  {
    x / y
  }

  lemma NamesMean(x: real, y: real)
    ensures Times(x, y) == x * y && (y != 0.0 ==> Over(x, y) == x / y)
  {
  }

  lemma CancelFactor(n: real, a: real, b: real)
    requires n > 0.0
    ensures a * n < b * n ==> a < b
    ensures a * n <= b * n ==> a <= b
  {
    if a >= b {
      assert a * n >= b * n;
    }
    if a > b {
      assert a * n > b * n;
    }
  }

  lemma ScaleOrder(n: real, a: real, b: real)
    requires n > 0.0
    ensures a < b ==> a * n < b * n
    ensures a <= b ==> a * n <= b * n
  {
  }

  lemma Quotient(a: real, b: real)
    requires b > 0.0
    ensures a / b * b == a
    ensures a > 0.0 ==> a / b > 0.0
    ensures a >= b ==> a / b >= 1.0
  {
    CancelFactor(b, 0.0, a / b);
    CancelFactor(b, 1.0, a / b);
  }

  lemma TimesOver(x: real, r: real)
    requires r != 0.0
    ensures Over(Times(x, r), r) == x && Times(Over(x, r), r) == x
    ensures x != 0.0 ==> Times(x, r) != 0.0 && Over(x, r) != 0.0
    ensures Times(x, 1.0) == x && Times(1.0, x) == x
  {
    assert Times(Over(x, r), r) == x;
  }

  /** Multiplying or dividing twice is doing so once with the combined factor. */
  lemma TwoFactors(x: real, r: real, s: real)
    requires r != 0.0 && s != 0.0
    ensures Times(r, s) != 0.0 && Over(s, r) != 0.0 && Over(r, s) != 0.0 && Over(1.0, Times(r, s)) != 0.0
    ensures Times(Times(x, r), s) == Times(x, Times(r, s))
    ensures Over(Over(x, r), s) == Over(x, Times(r, s)) == Times(x, Over(1.0, Times(r, s)))
    ensures Times(Over(x, r), s) == Times(x, Over(s, r)) == Over(x, Over(r, s))
    ensures Over(Times(x, r), s) == Times(x, Over(r, s)) == Over(x, Over(s, r))
    ensures Times(Times(x, r), s) == Over(x, Over(1.0, Times(r, s)))
  {
    TimesOver(r, s);
    TimesOver(s, r);
    TimesOver(1.0, Times(r, s));
  }

  lemma TimesAssociative(x: real, y: real, z: real)
    ensures Times(Times(x, y), z) == Times(x, Times(y, z))
  {
  }

  lemma TimesDistributes(x: real, y: real, w: real)
    ensures Times(x + y, w) == Times(x, w) + Times(y, w)
  {
  }

  lemma TimesMonotone(a: real, b: real, w: real)
    requires a <= b && w >= 0.0
    ensures Times(a, w) <= Times(b, w) && Times(w, a) <= Times(w, b)
  {
  }
}
