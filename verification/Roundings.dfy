/** Decimal rounding (ql/math/rounding.*). */
module Roundings {
  import opened Comparison
  import opened RealArithmetic

  datatype Kind = Up | Down | Closest | Floor | Ceiling

  datatype Rounding =
    | NoRounding
    | Rounding(precision: int, kind: Kind, digit: int)

  function Pow10(p: int): (m: real)
    ensures m > 0.0
    decreases if p < 0 then -p else p
  {
    if p == 0 then 1.0
    else if p > 0 then 10.0 * Pow10(p - 1)
    else Pow10(p + 1) / 10.0
  }

  lemma Pow10Next(p: int)
    ensures Pow10(p + 1) == Times(10.0, Pow10(p))
  {
  }

  /** Powers of ten: one factor of ten per digit, also for negative precisions. */
  lemma {:induction false} Pow10Adds(p: int, q: int)
    ensures Pow10(0) == 1.0 && Pow10(1) == 10.0
    ensures Pow10(p + q) == Times(Pow10(p), Pow10(q))
    decreases if q < 0 then -q else q
  {
    Pow10Next(0);
    if q > 0 {
      Pow10Adds(p, q - 1);
      Pow10Next(p + q - 1);
      Pow10Next(q - 1);
      TenInside(Pow10(p), Pow10(q - 1));
    } else if q < 0 {
      Pow10Adds(p, q + 1);
      Pow10Next(p + q);
      Pow10Next(q);
      TenInside(Pow10(p), Pow10(q));
      TenCancels(Pow10(p + q), Times(Pow10(p), Pow10(q)));
    }
  }

  lemma TenInside(x: real, y: real)
    ensures Times(x, Times(10.0, y)) == Times(10.0, Times(x, y))
  {
  }

  lemma TenCancels(x: real, y: real)
    requires Times(10.0, x) == Times(10.0, y)
    ensures x == y
  {
  }

  /** Whether the integral part is increased, given the fractional part that is dropped. */
  predicate RoundsUp(kind: Kind, digit: int, negative: bool, fraction: real) {
    match kind
    case Down => false
    case Up => fraction != 0.0
    case Closest => fraction >= digit as real / 10.0
    case Floor => !negative && fraction >= digit as real / 10.0
    case Ceiling => negative && fraction >= digit as real / 10.0
  }

  /** The scaled absolute value, rounded to an integer. */
  function RoundedScaled(r: Rounding, negative: bool, scaled: real): int
    requires r.Rounding?
  {
    var integral := scaled.Floor;
    if RoundsUp(r.kind, r.digit, negative, scaled - integral as real) then integral + 1 else integral
  }

  function Round(r: Rounding, value: real): real {
    if r.NoRounding? then value
    else
      var mult := Pow10(r.precision);
      var negative := value < 0.0;
      var rounded := Over(RoundedScaled(r, negative, Times(Abs(value), mult)) as real, mult);
      if negative then -rounded else rounded
  }

  /** The largest error of a rounding. */
  function Unit(r: Rounding): real {
    if r.NoRounding? then 0.0
    else Over(if r.kind.Closest? && r.digit == 5 then 0.5 else 1.0, Pow10(r.precision))
  }

  lemma Unscale(a: real, k: real, mult: real, e: real)
    requires mult > 0.0 && -e <= k - Times(a, mult) <= e
    ensures -Over(e, mult) <= Over(k, mult) - a <= Over(e, mult)
  {
    TimesOver(k, mult);
    TimesOver(e, mult);
    Within(Over(k, mult), a, mult, Over(e, mult));
  }

  lemma Within(x: real, a: real, mult: real, y: real)
    requires mult > 0.0 && -Times(y, mult) <= Times(x, mult) - Times(a, mult) <= Times(y, mult)
    ensures -y <= x - a <= y
  {
    CancelFactor(mult, x, a + y);
    CancelFactor(mult, a, x + y);
  }

  lemma ScaledError(r: Rounding, negative: bool, scaled: real)
    requires r.Rounding?
    ensures var e := if r.kind.Closest? && r.digit == 5 then 0.5 else 1.0;
      -e <= RoundedScaled(r, negative, scaled) as real - scaled <= e
  {
  }

  /** Rounding errs by at most one unit in the last place kept, and by half of one to the closest. */
  lemma RoundingError(r: Rounding, value: real)
    ensures Abs(Round(r, value) - value) <= Unit(r)
  {
    if r.Rounding? {
      var mult := Pow10(r.precision);
      var a := Abs(value);
      var scaled := Times(a, mult);
      ScaledError(r, value < 0.0, scaled);
      var k := RoundedScaled(r, value < 0.0, scaled) as real;
      hide RoundedScaled, Times, Over;
      Unscale(a, k, mult, if r.kind.Closest? && r.digit == 5 then 0.5 else 1.0);
    }
  }

  /** One more decimal place makes the largest error a tenth of what it was; with none it is one unit, or half of one to
      the closest. */
  lemma DecimalUnit(precision: int, kind: Kind, digit: int)
    ensures Times(10.0, Unit(Rounding(precision + 1, kind, digit))) == Unit(Rounding(precision, kind, digit))
    ensures Unit(Rounding(0, kind, digit)) == if kind.Closest? && digit == 5 then 0.5 else 1.0
  {
    var e := if kind.Closest? && digit == 5 then 0.5 else 1.0;
    Pow10Next(precision);
    TenthOf(e, Pow10(precision));
    Pow10Adds(0, 0);
  }

  lemma TenthOf(e: real, m: real)
    requires m > 0.0
    ensures Times(10.0, m) != 0.0 && Times(10.0, Over(e, Times(10.0, m))) == Over(e, m)
  {
    TwoFactors(e, 10.0, m);
    TimesOver(Over(e, m), 10.0);
    TwoFactors(e, m, 10.0);
    assert Times(10.0, m) == Times(m, 10.0);
  }

  /** A rounded value is a whole number of units. */
  lemma RoundedIsWhole(r: Rounding, value: real) returns (k: int)
    requires r.Rounding?
    ensures Times(Round(r, value), Pow10(r.precision)) == k as real
  {
    var mult := Pow10(r.precision);
    var n := RoundedScaled(r, value < 0.0, Times(Abs(value), mult));
    k := if value < 0.0 then -n else n;
    TimesOver(n as real, mult);
    assert Times(-Over(n as real, mult), mult) == -Times(Over(n as real, mult), mult);
  }

  /** A value with one decimal place too many, rounded to the closest, and the same in the other two directions. */
  lemma OneDecimal()
    ensures Round(Rounding(1, Closest, 5), 1.26) == 1.3
    ensures Round(Rounding(1, Down, 5), 1.26) == 1.2
    ensures Round(Rounding(-1, Closest, 5), 126.0) == 130.0
  {
    Pow10Next(0);
    Pow10Next(-1);
    assert Pow10(1) == 10.0 && Pow10(-1) == 0.1;
  }

  lemma ScaleBack(k: int, mult: real)
    requires mult > 0.0 && k >= 0
    ensures Times(Over(k as real, mult), mult) == k as real
    ensures Over(k as real, mult) >= 0.0 && (k > 0 <==> Over(k as real, mult) > 0.0)
  {
    TimesOver(k as real, mult);
    CancelFactor(mult, 0.0, Over(k as real, mult));
    CancelFactor(mult, Over(k as real, mult), 0.0);
  }

  lemma ScaledIsNonNegative(a: real, mult: real)
    requires a >= 0.0 && mult > 0.0
    ensures Times(a, mult) >= 0.0 && Times(a, mult).Floor >= 0
  {
  }

  /** The rounding digit, where it is used, is positive. */
  predicate PositiveDigit(r: Rounding) {
    r.Rounding? && !r.kind.Up? && !r.kind.Down? ==> r.digit > 0
  }

  lemma WholeIsKept(r: Rounding, negative: bool, k: int)
    requires r.Rounding? && PositiveDigit(r)
    ensures RoundedScaled(r, negative, k as real) == k
  {
  }

  /** A rounded value is left alone. */
  lemma RoundingTwice(r: Rounding, value: real)
    requires PositiveDigit(r)
    ensures Round(r, Round(r, value)) == Round(r, value)
  {
    if r.Rounding? {
      var mult := Pow10(r.precision);
      ScaledIsNonNegative(Abs(value), mult);
      var k := RoundedScaled(r, value < 0.0, Times(Abs(value), mult));
      ScaleBack(k, mult);
      WholeIsKept(r, true, k);
      WholeIsKept(r, false, k);
      hide RoundedScaled, Times, Over;
      assert Abs(Round(r, value)) == Over(k as real, mult);
    }
  }

  /** Without a positive digit a whole number of units still moves away from zero, where the digit counts. */
  lemma WholeIsMoved(r: Rounding, k: nat)
    requires !PositiveDigit(r) && k > 0
    ensures var mult := Pow10(r.precision);
      if r.kind.Ceiling? then Round(r, -Over(k as real, mult)) == -Over((k + 1) as real, mult)
      else Round(r, Over(k as real, mult)) == Over((k + 1) as real, mult)
  {
    var mult := Pow10(r.precision);
    ScaleBack(k, mult);
    hide Times, Over;
    assert RoundedScaled(r, r.kind.Ceiling?, k as real) == k + 1;
  }

  /** Rounding twice is rounding once, for every value, exactly when the digit is positive or not used. */
  lemma RoundingSettles(r: Rounding)
    ensures (forall value: real :: Round(r, Round(r, value)) == Round(r, value)) <==> PositiveDigit(r)
  {
    if PositiveDigit(r) {
      forall value: real ensures Round(r, Round(r, value)) == Round(r, value) {
        RoundingTwice(r, value);
      }
    } else {
      var mult := Pow10(r.precision);
      WholeIsMoved(r, 1);
      WholeIsMoved(r, 2);
      hide Round, Times, Over;
      TimesOver(2.0, mult);
      TimesOver(3.0, mult);
      var one := if r.kind.Ceiling? then -Over(1.0, mult) else Over(1.0, mult);
      assert Round(r, Round(r, one)) != Round(r, one);
    }
  }

  // ----- what each kind of rounding means -----

  /** The tenth from which a digit rounds up: none or less always does, ten or more never. */
  function Threshold(digit: int): real {
    if digit < 0 then 0.0 else if digit > 10 then 1.0 else digit as real / 10.0
  }

  /** How far the rounded scaled value `k` may be from the scaled value: truncation stays below it, rounding up above
      it, and rounding by digit goes up from that tenth on. */
  predicate Admissible(r: Rounding, negative: bool, scaled: real, k: int)
    requires r.Rounding?
  {
    var difference, threshold := k as real - scaled, Threshold(r.digit);
    if r.kind.Down? || (r.kind.Floor? && negative) || (r.kind.Ceiling? && !negative) then -1.0 < difference <= 0.0
    else if r.kind.Up? then 0.0 <= difference < 1.0
    else -threshold < difference <= 1.0 - threshold
  }

  /** Exactly one integer is admissible. */
  lemma OneAdmissible(r: Rounding, negative: bool, scaled: real, k: int)
    requires r.Rounding?
    ensures Admissible(r, negative, scaled, k) <==> k == RoundedScaled(r, negative, scaled)
  {
    var integral := scaled.Floor;
    assert integral as real <= scaled < (integral + 1) as real;
    var rounded := RoundedScaled(r, negative, scaled);
    assert Admissible(r, negative, scaled, rounded);
    if Admissible(r, negative, scaled, k) {
      assert -1.0 < k as real - rounded as real < 1.0;
      assert -1 < k - rounded < 1;
    }
  }

  /** A value is rounded to the number of units that its kind of rounding admits, with the sign it had. */
  lemma RoundingIsDetermined(r: Rounding, value: real, k: int)
    requires r.Rounding?
    ensures var mult := Pow10(r.precision);
      Admissible(r, value < 0.0, Times(Abs(value), mult), k)
      <==> Round(r, value) == if value < 0.0 then -Over(k as real, mult) else Over(k as real, mult)
  {
    var mult := Pow10(r.precision);
    var rounded := RoundedScaled(r, value < 0.0, Times(Abs(value), mult));
    OneAdmissible(r, value < 0.0, Times(Abs(value), mult), k);
    hide RoundedScaled, Times, Over, Admissible;
    TimesOver(rounded as real, mult);
    TimesOver(k as real, mult);
  }
}
