/** Money objects, whose compound assignments work in place, and comparisons between currencies (ql/money.cpp). */
module MoneyObjects {
  import opened Comparison
  import opened RealArithmetic
  import opened Results
  import opened ExchangeRates
  import opened RateManagers
  import opened Roundings
  import opened Moneys

  class Money {
    var value: real
    var currency: Currency

    constructor (amount: Amount)
      ensures Contents() == amount
    {
      value, currency := amount.value, amount.currency;
    }

    function Contents(): Amount
      reads this
    {
      Amount(value, currency)
    }

    method Convert(s: Settings, target: Currency) returns (r: Option<MoneyError>)
      requires s.Valid() && currency < 1000 && target < 1000
      modifies this
      ensures ConvertTo(s, old(Contents()), target) == if r.None? then Success(Contents()) else Failure(r.value)
      ensures r.Some? <==> old(currency) != target && Rate(s, old(currency), target).Failure?
      ensures r.Some? ==> r.value == RateNotFound(Rate(s, old(currency), target).error)
      ensures old(currency) == target ==> Contents() == old(Contents())
      ensures r.Some? ==> Contents() == old(Contents())
    {
      if currency == target {
        return None;
      }
      var rate := Rate(s, currency, target);
      if rate.Failure? {
        return Some(RateNotFound(rate.error));
      }
      LookupConnects(s.data, s.links, currency, target, s.date, false);
      EndsAre(rate.value, currency, target);
      ExchangeMatchesRate(rate.value, Contents());
      var exchanged := Exchange(rate.value, Contents()).value;
      value, currency := Round(s.rounding(exchanged.currency), exchanged.value), exchanged.currency;
      r := None;
    }

    method ToBase(s: Settings) returns (r: Option<MoneyError>)
      requires s.Valid() && currency < 1000
      modifies this
      ensures ConvertToBase(s, old(Contents())) == if r.None? then Success(Contents()) else Failure(r.value)
      ensures r == Some(NoBaseCurrency) <==> s.base.None?
      ensures r.None? ==> s.base == Some(currency)
      ensures r.Some? ==> Contents() == old(Contents())
    {
      if s.base.None? {
        return Some(NoBaseCurrency);
      }
      r := Convert(s, s.base.value);
    }

    /** What a failed compound assignment leaves behind: in base-currency mode this object has already been
        converted when the other operand turns out to have no rate. */
    static function LeftBehind(s: Settings, a: Amount, b: Amount): Amount
      requires s.Valid() && a.currency < 1000 && b.currency < 1000
    {
      if a.currency != b.currency && s.conversion.BaseCurrencyConversion? && ConvertToBase(s, a).Success?
      then ConvertToBase(s, a).value
      else a
    }

    method AddAssign(s: Settings, m: Money) returns (r: Option<MoneyError>)
      requires s.Valid() && currency < 1000 && m.currency < 1000
      modifies this
      ensures r.None? ==> Plus(s, old(Contents()), old(m.Contents())) == Success(Contents())
      ensures r.Some? ==> Plus(s, old(Contents()), old(m.Contents())) == Failure(r.value)
      ensures r.Some? ==> Contents() == LeftBehind(s, old(Contents()), old(m.Contents()))
      ensures r.Some? && !s.conversion.BaseCurrencyConversion? ==> Contents() == old(Contents())
      ensures r.Some? && s.conversion.BaseCurrencyConversion? ==>
        Contents() == match ConvertToBase(s, old(Contents())) case Success(x) => x case Failure(_) => old(Contents())
      decreases if currency == m.currency then 0 else 1
    {
      r := None;
      if currency == m.currency {
        value := value + m.value;
      } else if s.conversion.BaseCurrencyConversion? {
        r := ToBase(s);
        if r.None? {
          var tmp := new Money(m.Contents());
          r := tmp.ToBase(s);
          if r.None? {
            r := AddAssign(s, tmp);
          }
        }
      } else if s.conversion.AutomatedConversion? {
        var tmp := new Money(m.Contents());
        r := tmp.Convert(s, currency);
        if r.None? {
          r := AddAssign(s, tmp);
        }
      } else {
        r := Some(CurrencyMismatch);
      }
    }

    method SubtractAssign(s: Settings, m: Money) returns (r: Option<MoneyError>)
      requires s.Valid() && currency < 1000 && m.currency < 1000
      modifies this
      ensures r.None? ==> Minus(s, old(Contents()), old(m.Contents())) == Success(Contents())
      ensures r.Some? ==> Minus(s, old(Contents()), old(m.Contents())) == Failure(r.value)
      ensures r.Some? ==> Contents() == LeftBehind(s, old(Contents()), old(m.Contents()))
      ensures r.Some? && !s.conversion.BaseCurrencyConversion? ==> Contents() == old(Contents())
      ensures r.Some? && s.conversion.BaseCurrencyConversion? ==>
        Contents() == match ConvertToBase(s, old(Contents())) case Success(x) => x case Failure(_) => old(Contents())
      decreases if currency == m.currency then 0 else 1
    {
      r := None;
      if currency == m.currency {
        value := value - m.value;
      } else if s.conversion.BaseCurrencyConversion? {
        r := ToBase(s);
        if r.None? {
          var tmp := new Money(m.Contents());
          r := tmp.ToBase(s);
          if r.None? {
            r := SubtractAssign(s, tmp);
          }
        }
      } else if s.conversion.AutomatedConversion? {
        var tmp := new Money(m.Contents());
        r := tmp.Convert(s, currency);
        if r.None? {
          r := SubtractAssign(s, tmp);
        }
      } else {
        r := Some(CurrencyMismatch);
      }
    }
  }

  // ----- comparisons -----

  /** The operands brought to one currency, the way every binary operator does. */
  function Aligned(s: Settings, a: Amount, b: Amount): (r: Result<(Amount, Amount), MoneyError>)
    requires s.Valid() && a.currency < 1000 && b.currency < 1000
    ensures r.Success? ==> r.value.0.currency == r.value.1.currency < 1000
  {
    if a.currency == b.currency then Success((a, b))
    else
      match s.conversion
      case BaseCurrencyConversion =>
        var x :- ConvertToBase(s, a);
        var y :- ConvertToBase(s, b);
        Success((x, y))
      case AutomatedConversion =>
        var y :- ConvertTo(s, b, a.currency);
        Success((a, y))
      case NoConversion => Failure(CurrencyMismatch)
  }

  predicate WorksOn(s: Settings, a: Amount, b: Amount, x: Amount, y: Amount)
    requires s.Valid() && a.currency < 1000 && b.currency < 1000
  {
    && Plus(s, a, b) == Success(Amount(x.value + y.value, x.currency))
    && Minus(s, a, b) == Success(Amount(x.value - y.value, x.currency))
    && Equal(s, a, b) == Success(x.value == y.value)
    && Less(s, a, b) == Success(x.value < y.value)
    && LessEqual(s, a, b) == Success(x.value <= y.value)
  }

  predicate FailsWith(s: Settings, a: Amount, b: Amount, e: MoneyError)
    requires s.Valid() && a.currency < 1000 && b.currency < 1000
  {
    && Plus(s, a, b) == Failure(e) && Minus(s, a, b) == Failure(e)
    && Equal(s, a, b) == Failure(e) && Less(s, a, b) == Failure(e) && LessEqual(s, a, b) == Failure(e)
  }

  lemma OneCurrency(s: Settings, a: Amount, b: Amount)
    requires s.Valid() && a.currency == b.currency < 1000
    ensures WorksOn(s, a, b, a, b)
  {
    hide ConvertTo, ConvertToBase, Settings.Valid;
  }

  lemma AutomatedOperators(s: Settings, a: Amount, b: Amount)
    requires s.Valid() && a.currency < 1000 && b.currency < 1000 && a.currency != b.currency
    requires s.conversion.AutomatedConversion?
    ensures match ConvertTo(s, b, a.currency)
      case Success(y) => WorksOn(s, a, b, a, y)
      case Failure(e) => FailsWith(s, a, b, e)
  {
    hide ConvertTo, ConvertToBase, Settings.Valid;
    if ConvertTo(s, b, a.currency).Success? {
      OneCurrency(s, a, ConvertTo(s, b, a.currency).value);
    }
  }

  lemma BaseOperators(s: Settings, a: Amount, b: Amount, x: Amount, y: Amount)
    requires s.Valid() && a.currency < 1000 && b.currency < 1000 && a.currency != b.currency
    requires s.conversion.BaseCurrencyConversion?
    requires ConvertToBase(s, a) == Success(x) && ConvertToBase(s, b) == Success(y)
    ensures WorksOn(s, a, b, x, y)
  {
    hide ConvertTo, ConvertToBase;
    OneCurrency(s, x, y);
    hide Settings.Valid;
  }

  lemma BaseOperatorsFail(s: Settings, a: Amount, b: Amount)
    requires s.Valid() && a.currency < 1000 && b.currency < 1000 && a.currency != b.currency
    requires s.conversion.BaseCurrencyConversion?
    ensures ConvertToBase(s, a).Failure? ==> FailsWith(s, a, b, ConvertToBase(s, a).error)
    ensures ConvertToBase(s, a).Success? && ConvertToBase(s, b).Failure? ==>
      FailsWith(s, a, b, ConvertToBase(s, b).error)
  {
    hide ConvertTo, ConvertToBase, Settings.Valid;
  }

  /** Every operator converts at most once and then works on the values. */
  lemma OperatorsAlign(s: Settings, a: Amount, b: Amount)
    requires s.Valid() && a.currency < 1000 && b.currency < 1000
    ensures match Aligned(s, a, b)
      case Success((x, y)) => WorksOn(s, a, b, x, y)
      case Failure(e) => FailsWith(s, a, b, e)
  {
    hide ConvertTo, ConvertToBase, Settings.Valid, WorksOn, FailsWith;
    if a.currency == b.currency {
      OneCurrency(s, a, b);
    } else if s.conversion.BaseCurrencyConversion? {
      BaseOperatorsFail(s, a, b);
      if ConvertToBase(s, a).Success? && ConvertToBase(s, b).Success? {
        BaseOperators(s, a, b, ConvertToBase(s, a).value, ConvertToBase(s, b).value);
      }
    } else if s.conversion.AutomatedConversion? {
      AutomatedOperators(s, a, b);
    } else {
      assert FailsWith(s, a, b, CurrencyMismatch) by {
        NoOperators(s, a, b);
      }
    }
  }

  lemma NoOperators(s: Settings, a: Amount, b: Amount)
    requires s.Valid() && a.currency < 1000 && b.currency < 1000 && a.currency != b.currency
    requires s.conversion.NoConversion?
    ensures FailsWith(s, a, b, CurrencyMismatch)
  {
  }

  /** Exactly one of `a < b`, `a == b` and `b < a` holds, and `<=` is the negation of `<` the other way around. */
  predicate Trichotomy(s: Settings, a: Amount, b: Amount)
    requires s.Valid() && a.currency < 1000 && b.currency < 1000
  {
    && Less(s, a, b).Success? && Equal(s, a, b).Success? && Less(s, b, a).Success? && Equal(s, b, a).Success?
    && LessEqual(s, a, b).Success?
    && Equal(s, a, b) == Equal(s, b, a)
    && (Less(s, a, b).value ==> !Equal(s, a, b).value && !Less(s, b, a).value)
    && (Less(s, b, a).value ==> !Equal(s, a, b).value)
    && (Less(s, a, b).value || Equal(s, a, b).value || Less(s, b, a).value)
    && LessEqual(s, a, b).value == !Less(s, b, a).value
  }

  /** Comparisons that succeed are consistent unless operands are converted into each other's currency. */
  lemma TrichotomyAligned(s: Settings, a: Amount, b: Amount)
    requires s.Valid() && a.currency < 1000 && b.currency < 1000
    requires a.currency == b.currency || s.conversion.BaseCurrencyConversion?
    ensures Trichotomy(s, a, b) <==> Aligned(s, a, b).Success?
  {
    OperatorsAlign(s, a, b);
    OperatorsAlign(s, b, a);
    hide Plus, Minus, Equal, Less, LessEqual, ConvertTo, ConvertToBase, Settings.Valid;
  }

  /** The pair of currencies has a quote of its own, a positive one, and neither is replaced by a link. */
  predicate QuotedDirectly(s: Settings, c: Currency, d: Currency) {
    && c != d && c !in s.links && d !in s.links
    && Fetch(s.data, c, d, s.date).Some? && Fetch(s.data, c, d, s.date).value.rate > 0.0
  }

  lemma FetchEitherWay(s: Settings, c: Currency, d: Currency)
    ensures Fetch(s.data, c, d, s.date) == Fetch(s.data, d, c, s.date)
  {
  }

  lemma LookupQuoted(s: Settings, c: Currency, d: Currency)
    requires s.Valid() && c < 1000 && d < 1000 && QuotedDirectly(s, c, d)
    ensures Rate(s, c, d) == Success(Fetch(s.data, c, d, s.date).value)
  {
    hide Fetch, Settings.Valid;
  }

  lemma FactorOf(s: Settings, c: Currency, d: Currency, r: ExchangeRate)
    requires s.Valid() && c < 1000 && d < 1000 && c != d && r.rate != 0.0 && Rate(s, c, d) == Success(r)
    ensures Quotable(s, c, d) && Factor(s, c, d) == Oriented(r, c)
  {
    hide Rate, Oriented;
  }

  lemma QuoteJoins(s: Settings, c: Currency, d: Currency)
    requires s.Valid() && c < 1000 && d < 1000 && QuotedDirectly(s, c, d)
    ensures c != d && QuotedDirectly(s, d, c)
    ensures Fetch(s.data, c, d, s.date).Some? && Fetch(s.data, d, c, s.date) == Fetch(s.data, c, d, s.date)
    ensures var r := Fetch(s.data, c, d, s.date).value;
      r.rate > 0.0 && WellFormed(r) && {r.source, r.target} == {c, d}
  {
    hide Fetch;
    FetchedRate(s.data, c, d, s.date);
    FetchEitherWay(s, c, d);
  }

  lemma OrientedIsPositive(r: ExchangeRate, c: Currency)
    requires r.rate > 0.0
    ensures Oriented(r, c) > 0.0
  {
    TimesOver(1.0, r.rate);
    Quotient(1.0, r.rate);
  }

  /** A quoted pair converts there and back by inverse factors. */
  lemma QuoteMirrors(s: Settings, c: Currency, d: Currency)
    requires s.Valid() && c < 1000 && d < 1000 && QuotedDirectly(s, c, d)
    ensures Quotable(s, c, d) && Quotable(s, d, c)
    ensures Factor(s, c, d) > 0.0 && Factor(s, d, c) == Over(1.0, Factor(s, c, d))
  {
    hide *;
    QuoteJoins(s, c, d);
    LookupQuoted(s, c, d);
    LookupQuoted(s, d, c);
    var r := Fetch(s.data, c, d, s.date).value;
    FactorOf(s, c, d, r);
    FactorOf(s, d, c, r);
    OrientedBothWays(r, c, d);
    OrientedIsPositive(r, c);
  }

  // ----- comparisons in automated mode: when the order of the operands does not matter -----

  /** Neither currency rounds, and converting there and back is exact. */
  predicate ConvertsExactly(s: Settings, c: Currency, d: Currency)
    requires s.Valid() && c < 1000 && d < 1000 && Quotable(s, c, d) && Quotable(s, d, c)
  {
    && s.rounding(c).NoRounding? && s.rounding(d).NoRounding?
    && Times(Factor(s, c, d), Factor(s, d, c)) == 1.0
  }

  ghost predicate EqualityIsSymmetric(s: Settings, c: Currency, d: Currency)
    requires s.Valid() && c < 1000 && d < 1000
  {
    forall x: real, y: real :: Equal(s, Amount(x, c), Amount(y, d)) == Equal(s, Amount(y, d), Amount(x, c))
  }

  ghost predicate ComparisonsAreConsistent(s: Settings, c: Currency, d: Currency)
    requires s.Valid() && c < 1000 && d < 1000
  {
    forall x: real, y: real :: Trichotomy(s, Amount(x, c), Amount(y, d))
  }

  /** What an amount of one currency is compared with. */
  function RoundedWorth(s: Settings, y: real, d: Currency, c: Currency): real
    requires s.Valid() && c < 1000 && d < 1000 && Quotable(s, d, c)
  {
    Round(s.rounding(c), Times(y, Factor(s, d, c)))
  }

  lemma ComparedAcross(s: Settings, x: real, c: Currency, y: real, d: Currency)
    requires s.Valid() && c < 1000 && d < 1000 && c != d && s.conversion.AutomatedConversion? && Quotable(s, d, c)
    ensures Equal(s, Amount(x, c), Amount(y, d)) == Success(x == RoundedWorth(s, y, d, c))
    ensures Less(s, Amount(x, c), Amount(y, d)) == Success(x < RoundedWorth(s, y, d, c))
    ensures LessEqual(s, Amount(x, c), Amount(y, d)) == Success(x <= RoundedWorth(s, y, d, c))
  {
    var a, b := Amount(x, c), Amount(y, d);
    hide Plus, Minus, Equal, Less, LessEqual, ConvertTo, Factor, Quotable, Settings.Valid, Round, Times;
    ConversionRoundsWorth(s, b, c);
    AutomatedOperators(s, a, b);
  }

  /** Half a unit is not the result of any rounding. */
  lemma HalfUnitIsNotRounded(r: Rounding, value: real)
    requires r.Rounding?
    ensures Round(r, value) != Over(0.5, Pow10(r.precision))
  {
    var mult := Pow10(r.precision);
    var k := RoundedScaled(r, value < 0.0, Times(Abs(value), mult)) as real;
    hide RoundedScaled, Times, Over;
    TimesOver(k, mult);
    TimesOver(0.5, mult);
    if value < 0.0 && -Over(k, mult) == Over(0.5, mult) {
      NegatedUnits(k, 0.5, mult);
    }
  }

  lemma NegatedUnits(j: real, k: real, mult: real)
    requires mult != 0.0 && -Over(j, mult) == Over(k, mult)
    ensures -j == k
  {
    TimesOver(j, mult);
    TimesOver(k, mult);
    assert Times(-Over(j, mult), mult) == -Times(Over(j, mult), mult);
  }

  /** An amount that no conversion returns is equal to its own conversion one way around only. */
  lemma RoundingBreaksSymmetry(s: Settings, c: Currency, d: Currency)
    requires s.Valid() && c < 1000 && d < 1000 && c != d && s.conversion.AutomatedConversion?
    requires Quotable(s, c, d) && Quotable(s, d, c) && s.rounding(d).Rounding?
    ensures exists x: real, y: real ::
      Equal(s, Amount(x, c), Amount(y, d)) == Success(true) && Equal(s, Amount(y, d), Amount(x, c)) == Success(false)
  {
    hide Equal, Round, Factor, Quotable, Settings.Valid, Times, Over;
    var y := Over(0.5, Pow10(s.rounding(d).precision));
    var x := RoundedWorth(s, y, d, c);
    ComparedAcross(s, x, c, y, d);
    ComparedAcross(s, y, d, x, c);
    HalfUnitIsNotRounded(s.rounding(d), Times(x, Factor(s, c, d)));
  }

  lemma ExactlyThere(x: real, y: real, f: real, g: real)
    requires Times(f, g) == 1.0
    ensures x == Times(y, g) <==> y == Times(x, f)
    ensures f > 0.0 ==> (x < Times(y, g) <==> Times(x, f) < y)
  {
    TimesAssociative(y, g, f);
    TimesAssociative(x, f, g);
    assert Times(g, f) == Times(f, g);
    TimesOver(x, 1.0);
    TimesOver(y, 1.0);
    if f > 0.0 {
      CancelFactor(f, x, Times(y, g));
      ScaleOrder(f, x, Times(y, g));
    }
  }

  lemma UnroundedWorth(s: Settings, y: real, d: Currency, c: Currency)
    requires s.Valid() && c < 1000 && d < 1000 && Quotable(s, d, c) && s.rounding(c).NoRounding?
    ensures RoundedWorth(s, y, d, c) == Times(y, Factor(s, d, c))
  {
    hide Factor, Quotable, Settings.Valid, Times;
  }

  /** In automated mode equality of amounts in two currencies that convert into each other is symmetric exactly when
      neither currency rounds and the two conversions are inverse to each other. */
  lemma EqualityIsSymmetricWhenExact(s: Settings, c: Currency, d: Currency)
    requires s.Valid() && c < 1000 && d < 1000 && c != d && s.conversion.AutomatedConversion?
    requires Quotable(s, c, d) && Quotable(s, d, c)
    ensures EqualityIsSymmetric(s, c, d) <==> ConvertsExactly(s, c, d)
  {
    hide Equal, Less, LessEqual, Trichotomy, Round, Factor, Quotable, Settings.Valid, Times, RoundedWorth;
    var f, g := Factor(s, c, d), Factor(s, d, c);
    if EqualityIsSymmetric(s, c, d) {
      if s.rounding(d).Rounding? {
        RoundingBreaksSymmetry(s, c, d);
      } else if s.rounding(c).Rounding? {
        RoundingBreaksSymmetry(s, d, c);
      } else {
        ComparedAcross(s, g, c, 1.0, d);
        ComparedAcross(s, 1.0, d, g, c);
        UnroundedWorth(s, 1.0, d, c);
        UnroundedWorth(s, g, c, d);
        TimesOver(g, 1.0);
        TimesCommute(f, g);
      }
    } else {
      var x: real, y: real :| Equal(s, Amount(x, c), Amount(y, d)) != Equal(s, Amount(y, d), Amount(x, c));
      ComparedAcross(s, x, c, y, d);
      ComparedAcross(s, y, d, x, c);
      if ConvertsExactly(s, c, d) {
        UnroundedWorth(s, y, d, c);
        UnroundedWorth(s, x, c, d);
        ExactlyThere(x, y, f, g);
      }
    }
  }

  lemma TimesCommute(x: real, y: real)
    ensures Times(x, y) == Times(y, x)
  {
  }

  lemma ConsistentIsSymmetric(s: Settings, c: Currency, d: Currency)
    requires s.Valid() && c < 1000 && d < 1000 && ComparisonsAreConsistent(s, c, d)
    ensures EqualityIsSymmetric(s, c, d)
  {
    hide Equal, Less, LessEqual, Settings.Valid;
    forall x: real, y: real ensures Equal(s, Amount(x, c), Amount(y, d)) == Equal(s, Amount(y, d), Amount(x, c)) {
      assert Trichotomy(s, Amount(x, c), Amount(y, d));
    }
  }

  /** In automated mode all comparisons are consistent exactly when, besides, the conversion factor is positive. */
  lemma ComparisonsAreConsistentWhenExact(s: Settings, c: Currency, d: Currency)
    requires s.Valid() && c < 1000 && d < 1000 && c != d && s.conversion.AutomatedConversion?
    requires Quotable(s, c, d) && Quotable(s, d, c)
    ensures ComparisonsAreConsistent(s, c, d) <==> ConvertsExactly(s, c, d) && Factor(s, c, d) > 0.0
  {
    hide Equal, Less, LessEqual, Round, Factor, Quotable, Settings.Valid, Times, RoundedWorth;
    var f, g := Factor(s, c, d), Factor(s, d, c);
    if ComparisonsAreConsistent(s, c, d) {
      ConsistentIsSymmetric(s, c, d);
      EqualityIsSymmetricWhenExact(s, c, d);
      ComparedAcross(s, -1.0, c, 0.0, d);
      ComparedAcross(s, 0.0, d, -1.0, c);
      UnroundedWorth(s, 0.0, d, c);
      UnroundedWorth(s, -1.0, c, d);
      SignOfFactor(f, g);
      assert Trichotomy(s, Amount(-1.0, c), Amount(0.0, d));
    }
    if ConvertsExactly(s, c, d) && f > 0.0 {
      forall x: real, y: real ensures Trichotomy(s, Amount(x, c), Amount(y, d)) {
        ComparedAcross(s, x, c, y, d);
        ComparedAcross(s, y, d, x, c);
        UnroundedWorth(s, y, d, c);
        UnroundedWorth(s, x, c, d);
        ExactlyThere(x, y, f, g);
      }
    }
  }

  lemma SignOfFactor(f: real, g: real)
    ensures Times(0.0, g) == 0.0 && Times(-1.0, f) == -f
    ensures Times(f, g) == 1.0 ==> f != 0.0
  {
  }

  /** For a pair of currencies with a quote of its own the conversions are inverse anyway: only rounding matters. */
  lemma QuotedEqualityIsSymmetric(s: Settings, c: Currency, d: Currency)
    requires s.Valid() && c < 1000 && d < 1000 && s.conversion.AutomatedConversion? && QuotedDirectly(s, c, d)
    ensures EqualityIsSymmetric(s, c, d) <==> s.rounding(c).NoRounding? && s.rounding(d).NoRounding?
    ensures ComparisonsAreConsistent(s, c, d) <==> EqualityIsSymmetric(s, c, d)
  {
    hide EqualityIsSymmetric, ComparisonsAreConsistent, Factor, Quotable, Settings.Valid, Times, Over;
    QuoteMirrors(s, c, d);
    TimesOver(1.0, Factor(s, c, d));
    TimesCommute(Factor(s, c, d), Factor(s, d, c));
    EqualityIsSymmetricWhenExact(s, c, d);
    ComparisonsAreConsistentWhenExact(s, c, d);
  }

  // ----- rounding breaks the symmetry -----

  /** One unit of currency 1 is quoted at three units of currency 2, and every conversion is rounded to the closest
      whole unit. */
  function ThreeToOne(): Settings {
    Settings(AutomatedConversion, None, map[1002 := [Entry(Direct(1, 2, 3.0), 0, 0)]], map[], 0,
             _ => Rounding(0, Closest, 5))
  }

  lemma ThreeToOneQuotes()
    ensures var s := ThreeToOne();
      && s.Valid() && QuotedDirectly(s, 1, 2) && QuotedDirectly(s, 2, 1)
      && Fetch(s.data, 1, 2, 0) == Some(Direct(1, 2, 3.0)) && Fetch(s.data, 2, 1, 0) == Some(Direct(1, 2, 3.0))
  {
    var s := ThreeToOne();
    assert Ranked(map[], _ => 0);
    assert Hash(1, 2) == 1002 && Hash(2, 1) == 1002;
    assert FirstValid(s.data[1002], 0) == Some(Direct(1, 2, 3.0));
  }

  lemma RoundedToUnits()
    ensures Round(Rounding(0, Closest, 5), 3.0) == 3.0 && Round(Rounding(0, Closest, 5), 4.0 / 3.0) == 1.0
  {
    assert Pow10(0) == 1.0;
    assert (4.0 / 3.0).Floor == 1;
  }

  lemma ThreeToOneConverts()
    ensures var s, a, b := ThreeToOne(), Amount(1.0, 1), Amount(4.0, 2);
      s.Valid() && ConvertTo(s, a, 2) == Success(Amount(3.0, 2)) && ConvertTo(s, b, 1) == Success(Amount(1.0, 1))
  {
    var s, a, b, r := ThreeToOne(), Amount(1.0, 1), Amount(4.0, 2), Direct(1, 2, 3.0);
    ThreeToOneQuotes();
    LookupQuoted(s, 1, 2);
    LookupQuoted(s, 2, 1);
    RoundedToUnits();
    assert Exchange(r, a) == Success(Amount(3.0, 2)) && Exchange(r, b) == Success(Amount(4.0 / 3.0, 1));
    assert s.rounding(1) == s.rounding(2) == Rounding(0, Closest, 5);
    hide Rate, Round, Settings.Valid, Fetch, Filed, Exchange;
  }

  /** With rounding, equality in automated mode depends on the order of the operands: one unit of currency 1 equals
      four of currency 2, which are worth a unit and a third, but not the other way around. */
  lemma RoundedEqualityDependsOnOrder()
    ensures ThreeToOne().Valid() && QuotedDirectly(ThreeToOne(), 1, 2)
    ensures var a, b := Amount(1.0, 1), Amount(4.0, 2);
      Equal(ThreeToOne(), a, b) == Success(true) && Equal(ThreeToOne(), b, a) == Success(false)
  {
    var s, a, b := ThreeToOne(), Amount(1.0, 1), Amount(4.0, 2);
    ThreeToOneQuotes();
    ThreeToOneConverts();
    hide ConvertTo, Settings.Valid, QuotedDirectly, Equal;
    AutomatedOperators(s, a, b);
    AutomatedOperators(s, b, a);
  }
}
