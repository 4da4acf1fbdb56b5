/** Money arithmetic under currency conversion (ql/money.hpp, ql/money.cpp). */
module Moneys {
  import opened Comparison
  import opened RealArithmetic
  import opened Results
  import opened ExchangeRates
  import opened RateManagers
  import opened Roundings
  import opened Triangulations

  datatype Conversion = NoConversion | BaseCurrencyConversion | AutomatedConversion

  datatype MoneyError = NoBaseCurrency | CurrencyMismatch | RateNotFound(error: RateError)

  /** The global settings that money arithmetic reads, and the rates and rounding conventions behind them. */
  datatype Settings = Settings(
    conversion: Conversion,
    base: Option<Currency>,
    data: Rates,
    links: map<Currency, Currency>,
    date: Date,
    rounding: Currency -> Rounding)
  {
    ghost predicate Valid() {
      Filed(data) && Triangulation(links) && (base.Some? ==> base.value < 1000)
    }
  }

  function Rate(s: Settings, source: Currency, target: Currency): Result<ExchangeRate, RateError>
    requires s.Valid() && source < 1000 && target < 1000
  {
    LookupRate(s.data, s.links, source, target, s.date, false)
  }

  function Rounded(s: Settings, a: Amount): Amount {
    Amount(Round(s.rounding(a.currency), a.value), a.currency)
  }

  /** Converts an amount, rounding the result, unless it already is in the target currency. */
  function ConvertTo(s: Settings, a: Amount, target: Currency): (r: Result<Amount, MoneyError>)
    requires s.Valid() && a.currency < 1000 && target < 1000
    ensures r.Success? ==> r.value.currency == target
  {
    if a.currency == target then Success(a)
    else
      match Rate(s, a.currency, target)
      case Failure(e) => Failure(RateNotFound(e))
      case Success(rate) =>
        LookupConnects(s.data, s.links, a.currency, target, s.date, false);
        EndsAre(rate, a.currency, target);
        ExchangeMatchesRate(rate, a);
        Success(Rounded(s, Exchange(rate, a).value))
  }

  function ConvertToBase(s: Settings, a: Amount): (r: Result<Amount, MoneyError>)
    requires s.Valid() && a.currency < 1000
    ensures r.Success? ==> s.base.Some? && r.value.currency == s.base.value
  {
    if s.base.None? then Failure(NoBaseCurrency) else ConvertTo(s, a, s.base.value)
  }

  // ----- the operators; each recurses once, on operands of one currency -----

  function Plus(s: Settings, a: Amount, b: Amount): Result<Amount, MoneyError>
    requires s.Valid() && a.currency < 1000 && b.currency < 1000
    decreases if a.currency == b.currency then 0 else 1
  {
    if a.currency == b.currency then Success(Amount(a.value + b.value, a.currency))
    else
      match s.conversion
      case BaseCurrencyConversion =>
        var x :- ConvertToBase(s, a);
        var y :- ConvertToBase(s, b);
        Plus(s, x, y)
      case AutomatedConversion =>
        var y :- ConvertTo(s, b, a.currency);
        Plus(s, a, y)
      case NoConversion => Failure(CurrencyMismatch)
  }

  function Minus(s: Settings, a: Amount, b: Amount): Result<Amount, MoneyError>
    requires s.Valid() && a.currency < 1000 && b.currency < 1000
    decreases if a.currency == b.currency then 0 else 1
  {
    if a.currency == b.currency then Success(Amount(a.value - b.value, a.currency))
    else
      match s.conversion
      case BaseCurrencyConversion =>
        var x :- ConvertToBase(s, a);
        var y :- ConvertToBase(s, b);
        Minus(s, x, y)
      case AutomatedConversion =>
        var y :- ConvertTo(s, b, a.currency);
        Minus(s, a, y)
      case NoConversion => Failure(CurrencyMismatch)
  }

  function Equal(s: Settings, a: Amount, b: Amount): Result<bool, MoneyError>
    requires s.Valid() && a.currency < 1000 && b.currency < 1000
    decreases if a.currency == b.currency then 0 else 1
  {
    if a.currency == b.currency then Success(a.value == b.value)
    else
      match s.conversion
      case BaseCurrencyConversion =>
        var x :- ConvertToBase(s, a);
        var y :- ConvertToBase(s, b);
        Equal(s, x, y)
      case AutomatedConversion =>
        var y :- ConvertTo(s, b, a.currency);
        Equal(s, a, y)
      case NoConversion => Failure(CurrencyMismatch)
  }

  function Less(s: Settings, a: Amount, b: Amount): Result<bool, MoneyError>
    requires s.Valid() && a.currency < 1000 && b.currency < 1000
    decreases if a.currency == b.currency then 0 else 1
  {
    if a.currency == b.currency then Success(a.value < b.value)
    else
      match s.conversion
      case BaseCurrencyConversion =>
        var x :- ConvertToBase(s, a);
        var y :- ConvertToBase(s, b);
        Less(s, x, y)
      case AutomatedConversion =>
        var y :- ConvertTo(s, b, a.currency);
        Less(s, a, y)
      case NoConversion => Failure(CurrencyMismatch)
  }

  function LessEqual(s: Settings, a: Amount, b: Amount): Result<bool, MoneyError>
    requires s.Valid() && a.currency < 1000 && b.currency < 1000
    decreases if a.currency == b.currency then 0 else 1
  {
    if a.currency == b.currency then Success(a.value <= b.value)
    else
      match s.conversion
      case BaseCurrencyConversion =>
        var x :- ConvertToBase(s, a);
        var y :- ConvertToBase(s, b);
        LessEqual(s, x, y)
      case AutomatedConversion =>
        var y :- ConvertTo(s, b, a.currency);
        LessEqual(s, a, y)
      case NoConversion => Failure(CurrencyMismatch)
  }

  // ----- what conversion computes -----

  /** A rate between the two currencies can be looked up. */
  predicate Quotable(s: Settings, c: Currency, target: Currency)
    requires s.Valid() && c < 1000 && target < 1000
  {
    c == target || Rate(s, c, target).Success?
  }

  /** What one unit of `c` is worth in the target currency. */
  function Factor(s: Settings, c: Currency, target: Currency): real
    requires s.Valid() && c < 1000 && target < 1000 && Quotable(s, c, target)
  {
    if c == target then 1.0
    else
      LookupConnects(s.data, s.links, c, target, s.date, false);
      Oriented(Rate(s, c, target).value, c)
  }

  /** The exact worth of an amount in the target currency. */
  function Worth(s: Settings, a: Amount, target: Currency): real
    requires s.Valid() && a.currency < 1000 && target < 1000 && Quotable(s, a.currency, target)
  {
    Times(a.value, Factor(s, a.currency, target))
  }

  /** Conversion succeeds exactly when a rate can be looked up, and rounds the exact worth. */
  lemma ConversionRoundsWorth(s: Settings, a: Amount, target: Currency)
    requires s.Valid() && a.currency < 1000 && target < 1000
    ensures ConvertTo(s, a, target).Success? <==> Quotable(s, a.currency, target)
    ensures Quotable(s, a.currency, target) ==>
      ConvertTo(s, a, target).value.value ==
        if a.currency == target then Worth(s, a, target) else Round(s.rounding(target), Worth(s, a, target))
  {
    if a.currency == target {
      TimesOver(a.value, 1.0);
    } else if Rate(s, a.currency, target).Success? {
      var rate := Rate(s, a.currency, target).value;
      LookupConnects(s.data, s.links, a.currency, target, s.date, false);
      EndsAre(rate, a.currency, target);
      ExchangeMatchesRate(rate, a);
      TwoFactors(a.value, 1.0, rate.rate);
      TimesOver(a.value, 1.0);
      assert Over(a.value, rate.rate) == Times(a.value, Over(1.0, rate.rate));
    }
  }

  /** A conversion multiplies by the quotes along a walk through the links, valid at the date of the settings, and
      rounds by the convention of the target currency. */
  lemma ConversionFollowsWalk(s: Settings, a: Amount, target: Currency) returns (cs: seq<Currency>)
    requires s.Valid() && a.currency < 1000 && target < 1000 && a.currency != target
    requires ConvertTo(s, a, target).Success?
    ensures Via(s.data, s.links, s.date, cs, a.currency, target) && Path(cs, Quotes(s.data, s.date, cs))
    ensures ConvertTo(s, a, target)
         == Success(Amount(Round(s.rounding(target),
                                 Times(a.value, PathRate(cs, Quotes(s.data, s.date, cs)))), target))
  {
    hide Fetch, Filed, PathRate, Path, Quotes, Via, LookupRate, WellFormed, Round, Times, ConvertTo;
    ConversionRoundsWorth(s, a, target);
    cs := LookupFollowsLinks(s.data, s.links, a.currency, target, s.date);
  }

  /** It succeeds exactly when there is such a walk. */
  lemma ConversionDecides(s: Settings, a: Amount, target: Currency)
    requires s.Valid() && a.currency < 1000 && target < 1000 && a.currency != target
    ensures ConvertTo(s, a, target).Success? <==> exists cs :: Via(s.data, s.links, s.date, cs, a.currency, target)
  {
    hide Filed, Via, LookupRate, ConvertTo;
    ConversionRoundsWorth(s, a, target);
    LookupDecides(s.data, s.links, a.currency, target, s.date);
  }

  /** With a quote of the pair that no link replaces, an amount in its source is multiplied by its rate, and one in its
      target is divided by it. */
  lemma ConversionByQuote(s: Settings, a: Amount, target: Currency)
    requires s.Valid() && a.currency < 1000 && target < 1000 && a.currency !in s.links && target !in s.links
    requires a.currency != target && Fetch(s.data, a.currency, target, s.date).Some?
    ensures var q := Fetch(s.data, a.currency, target, s.date).value;
      && q.rate != 0.0
      && (a.currency == q.source ==>
            ConvertTo(s, a, target) == Success(Amount(Round(s.rounding(target), Times(a.value, q.rate)), target)))
      && (a.currency == q.target ==>
            ConvertTo(s, a, target) == Success(Amount(Round(s.rounding(target), Over(a.value, q.rate)), target)))
      && {q.source, q.target} == {a.currency, target}
  {
    FetchedRate(s.data, a.currency, target, s.date);
    var q := Fetch(s.data, a.currency, target, s.date).value;
    EndsAre(q, a.currency, target);
    ExchangeMatchesRate(q, a);
    assert Rate(s, a.currency, target) == Success(q);
    hide Fetch, Filed, Round, LookupRate;
    assert ConvertTo(s, a, target) == Success(Rounded(s, Exchange(q, a).value));
  }

  /** The error allowed for `n` roundings that err by at most `u` each. */
  function Budget(n: nat, u: real): real {
    Times(n as real, u)
  }

  /** `v` differs from `w` by at most `n` roundings. */
  predicate Within(v: real, w: real, n: nat, u: real) {
    Abs(v - w) <= Budget(n, u)
  }

  lemma WithinMeans(v: real, w: real, n: nat, u: real)
    ensures Within(v, w, n, u) <==> -(n as real * u) <= v - w <= n as real * u
  {
  }

  lemma WithinShift(v: real, y: real, a: real, w: real, n: nat, u: real)
    requires Within(v, (a + y) + w, n, u)
    ensures Within(v - y, a + w, n, u)
  {
  }

  lemma BudgetsAdd(m: nat, n: nat, u: real)
    ensures Budget(m + n, u) == Budget(m, u) + Budget(n, u)
    ensures Budget(0, u) == 0.0 && Budget(1, u) == u
  {
    assert (m + n) as real == m as real + n as real;
  }

  /** 1 for an amount that has to be converted, 0 for one that has not. */
  function Foreign(a: Amount, target: Currency): nat {
    if a.currency == target then 0 else 1
  }

  lemma ErrorOfOne(x: real, y: real, a: Amount, target: Currency, u: real)
    requires if a.currency == target then x == y else Abs(x - y) <= u
    ensures Within(x, y, Foreign(a, target), u)
  {
    BudgetsAdd(0, 0, u);
  }

  lemma ConversionError(s: Settings, a: Amount, target: Currency, u: real)
    requires s.Valid() && a.currency < 1000 && target < 1000 && Quotable(s, a.currency, target)
    requires Unit(s.rounding(target)) <= u
    ensures ConvertTo(s, a, target).Success?
    ensures Within(ConvertTo(s, a, target).value.value, Worth(s, a, target), Foreign(a, target), u)
  {
    hide *;
    ConversionRoundsWorth(s, a, target);
    RoundingError(s.rounding(target), Worth(s, a, target));
    ErrorOfOne(ConvertTo(s, a, target).value.value, Worth(s, a, target), a, target, u);
  }

  // ----- sums -----

  predicate Codes(amounts: seq<Amount>) {
    forall i :: 0 <= i < |amounts| ==> amounts[i].currency < 1000
  }

  /** Adding amounts one by one with `+=`, in order. */
  function Total(s: Settings, acc: Amount, amounts: seq<Amount>): Result<Amount, MoneyError>
    requires s.Valid() && acc.currency < 1000 && Codes(amounts)
    decreases |amounts|
  {
    if amounts == [] then Success(acc)
    else
      var next :- Plus(s, acc, amounts[0]);
      PlusKeepsCode(s, acc, amounts[0]);
      Total(s, next, amounts[1..])
  }

  lemma PlusKeepsCode(s: Settings, a: Amount, b: Amount)
    requires s.Valid() && a.currency < 1000 && b.currency < 1000 && Plus(s, a, b).Success?
    ensures Plus(s, a, b).value.currency < 1000
  {
    hide ConvertTo;
  }

  predicate AllQuotable(s: Settings, amounts: seq<Amount>, target: Currency)
    requires s.Valid() && Codes(amounts) && target < 1000
  {
    forall i :: 0 <= i < |amounts| ==> Quotable(s, amounts[i].currency, target)
  }

  function WorthOfAll(s: Settings, amounts: seq<Amount>, target: Currency): real
    requires s.Valid() && Codes(amounts) && target < 1000 && AllQuotable(s, amounts, target)
  {
    if amounts == [] then 0.0 else Worth(s, amounts[0], target) + WorthOfAll(s, amounts[1..], target)
  }

  function ForeignCount(amounts: seq<Amount>, target: Currency): nat {
    if amounts == [] then 0 else Foreign(amounts[0], target) + ForeignCount(amounts[1..], target)
  }

  predicate AllIn(amounts: seq<Amount>, c: Currency) {
    forall i :: 0 <= i < |amounts| ==> amounts[i].currency == c
  }

  /** The sum of the values, whatever the currencies. */
  function ValueSum(amounts: seq<Amount>): real {
    if amounts == [] then 0.0 else amounts[0].value + ValueSum(amounts[1..])
  }

  lemma AbsSum(x: real, y: real)
    ensures Abs(x + y) <= Abs(x) + Abs(y)
  {
  }

  /** Errors of two parts add up to the error of the whole. */
  lemma ErrorsAdd(x: real, x0: real, y: real, y0: real, whole: real, whole0: real, m: nat, n: nat, u: real)
    requires Within(x, x0, m, u) && Within(y, y0, n, u)
    requires whole == x + y && whole0 == x0 + y0
    ensures Within(whole, whole0, m + n, u)
  {
    AbsSum(x - x0, y - y0);
    BudgetsAdd(m, n, u);
  }

  lemma NothingToAdd(s: Settings, acc: Amount, amounts: seq<Amount>, c: Currency, u: real)
    requires s.Valid() && acc.currency < 1000 && c < 1000 && amounts == []
    ensures Codes(amounts) && AllQuotable(s, amounts, c) && AllIn(amounts, c)
    ensures Total(s, acc, amounts) == Success(acc)
    ensures WorthOfAll(s, amounts, c) == 0.0 && ValueSum(amounts) == 0.0 && ForeignCount(amounts, c) == 0
    ensures forall x :: Within(x, x, 0, u)
  {
    BudgetsAdd(0, 0, u);
  }

  /** In automated mode the total errs by at most one rounding per foreign addend. */
  lemma {:induction false} AutomatedTotal(s: Settings, acc: Amount, amounts: seq<Amount>, u: real)
    requires s.Valid() && s.conversion.AutomatedConversion? && acc.currency < 1000 && Codes(amounts)
    requires AllQuotable(s, amounts, acc.currency) && Unit(s.rounding(acc.currency)) <= u
    ensures Total(s, acc, amounts).Success?
    ensures var r := Total(s, acc, amounts).value;
      && r.currency == acc.currency
      && Within(r.value, acc.value + WorthOfAll(s, amounts, acc.currency), ForeignCount(amounts, acc.currency), u)
    decreases |amounts|
  {
    hide *;
    var c := acc.currency;
    if amounts == [] {
      NothingToAdd(s, acc, amounts, c, u);
    } else {
      var x, rest := amounts[0], amounts[1..];
      RestOf(s, amounts, c);
      ConversionError(s, x, c, u);
      AutomatedStep(s, acc, amounts);
      var y := ConvertTo(s, x, c).value.value;
      var next := Amount(acc.value + y, c);
      AutomatedTotal(s, next, rest, u);
      var r := Total(s, next, rest).value;
      WithinShift(r.value, y, acc.value, WorthOfAll(s, rest, c), ForeignCount(rest, c), u);
      ErrorsAdd(y, Worth(s, x, c), r.value - y, acc.value + WorthOfAll(s, rest, c),
                r.value, acc.value + WorthOfAll(s, amounts, c), Foreign(x, c), ForeignCount(rest, c), u);
    }
  }

  lemma RestOf(s: Settings, amounts: seq<Amount>, c: Currency)
    requires s.Valid() && Codes(amounts) && amounts != [] && c < 1000 && AllQuotable(s, amounts, c)
    ensures Codes(amounts[1..]) && AllQuotable(s, amounts[1..], c)
    ensures amounts[0].currency < 1000 && Quotable(s, amounts[0].currency, c)
    ensures WorthOfAll(s, amounts, c) == Worth(s, amounts[0], c) + WorthOfAll(s, amounts[1..], c)
    ensures ForeignCount(amounts, c) == Foreign(amounts[0], c) + ForeignCount(amounts[1..], c)
  {
  }

  lemma PlusSameCurrency(s: Settings, a: Amount, b: Amount)
    requires s.Valid() && a.currency == b.currency < 1000
    ensures Plus(s, a, b) == Success(Amount(a.value + b.value, a.currency))
  {
    hide ConvertTo, ConvertToBase, Settings.Valid;
  }

  lemma PlusConverted(s: Settings, a: Amount, b: Amount, y: Amount)
    requires s.Valid() && s.conversion.AutomatedConversion? && a.currency < 1000 && b.currency < 1000
    requires a.currency != b.currency && ConvertTo(s, b, a.currency) == Success(y)
    ensures Plus(s, a, b) == Plus(s, a, y)
  {
    hide ConvertTo, ConvertToBase, Settings.Valid;
  }

  lemma PlusAutomated(s: Settings, a: Amount, b: Amount)
    requires s.Valid() && s.conversion.AutomatedConversion? && a.currency < 1000 && b.currency < 1000
    requires ConvertTo(s, b, a.currency).Success?
    ensures Plus(s, a, b) == Success(Amount(a.value + ConvertTo(s, b, a.currency).value.value, a.currency))
  {
    hide *;
    if a.currency == b.currency {
      WorthAtHome(s, b);
      PlusSameCurrency(s, a, b);
    } else {
      var y := ConvertTo(s, b, a.currency).value;
      PlusConverted(s, a, b, y);
      PlusSameCurrency(s, a, y);
    }
  }

  lemma TotalStep(s: Settings, acc: Amount, amounts: seq<Amount>, next: Amount)
    requires s.Valid() && acc.currency < 1000 && Codes(amounts) && amounts != []
    requires amounts[0].currency < 1000 && Plus(s, acc, amounts[0]) == Success(next)
    ensures Codes(amounts[1..]) && next.currency < 1000 && Total(s, acc, amounts) == Total(s, next, amounts[1..])
  {
    PlusKeepsCode(s, acc, amounts[0]);
    hide Plus, Settings.Valid;
  }

  lemma CodeOf(amounts: seq<Amount>, i: nat)
    requires Codes(amounts) && i < |amounts|
    ensures amounts[i].currency < 1000
  {
  }

  lemma AutomatedStep(s: Settings, acc: Amount, amounts: seq<Amount>)
    requires s.Valid() && s.conversion.AutomatedConversion? && acc.currency < 1000 && Codes(amounts) && amounts != []
    requires ConvertTo(s, amounts[0], acc.currency).Success?
    ensures var next := Amount(acc.value + ConvertTo(s, amounts[0], acc.currency).value.value, acc.currency);
      Codes(amounts[1..]) && Total(s, acc, amounts) == Total(s, next, amounts[1..])
  {
    hide *;
    CodeOf(amounts, 0);
    PlusAutomated(s, acc, amounts[0]);
    TotalStep(s, acc, amounts, Plus(s, acc, amounts[0]).value);
  }

  // ----- order of the addends -----

  function SumOf(f: Amount -> real, amounts: seq<Amount>): real {
    if amounts == [] then 0.0 else f(amounts[0]) + SumOf(f, amounts[1..])
  }

  lemma {:induction false} SumWithout(f: Amount -> real, amounts: seq<Amount>, i: nat)
    requires i < |amounts|
    ensures SumOf(f, amounts) == f(amounts[i]) + SumOf(f, Without(amounts, i))
  {
    var without := Without(amounts, i);
    if i == 0 {
      assert without == amounts[1..];
    } else {
      SumWithout(f, amounts[1..], i - 1);
      assert without[1..] == amounts[1..][..i - 1] + amounts[1..][i..];
    }
  }

  function Without(amounts: seq<Amount>, i: nat): seq<Amount>
    requires i < |amounts|
  {
    amounts[..i] + amounts[i + 1..]
  }

  lemma SameMembers(xs: seq<Amount>, ys: seq<Amount>, x: Amount) returns (i: nat)
    requires multiset(xs) == multiset(ys) && x in xs
    ensures i < |ys| && ys[i] == x
  {
    assert x in multiset(ys);
    i :| 0 <= i < |ys| && ys[i] == x;
  }

  lemma MultisetWithout(amounts: seq<Amount>, i: nat)
    requires i < |amounts|
    ensures multiset(Without(amounts, i)) == multiset(amounts) - multiset{amounts[i]}
  {
    assert amounts == amounts[..i] + [amounts[i]] + amounts[i + 1..];
  }

  lemma EmptyPermutation(ys: seq<Amount>)
    requires multiset(ys) == multiset([])
    ensures ys == []
  {
    assert |multiset(ys)| == |ys|;
  }

  lemma {:induction false} SumOfPermutation(f: Amount -> real, xs: seq<Amount>, ys: seq<Amount>)
    requires multiset(xs) == multiset(ys)
    ensures SumOf(f, xs) == SumOf(f, ys)
    decreases |xs|
  {
    if xs == [] {
      EmptyPermutation(ys);
    } else {
      hide SumOf, Without;
      var i := SameMembers(xs, ys, xs[0]);
      MultisetWithout(xs, 0);
      MultisetWithout(ys, i);
      SumWithout(f, xs, 0);
      SumWithout(f, ys, i);
      ShorterWithout(xs, 0);
      SumOfPermutation(f, Without(xs, 0), Without(ys, i));
    }
  }

  lemma ShorterWithout(amounts: seq<Amount>, i: nat)
    requires i < |amounts|
    ensures |Without(amounts, i)| < |amounts|
  {
  }

  /** The rounded value of an amount in a currency. */
  ghost function ConvertedValue(s: Settings, c: Currency): (f: Amount -> real)
    requires s.Valid() && c < 1000
  {
    (a: Amount) =>
      if a.currency < 1000 && ConvertTo(s, a, c).Success? then ConvertTo(s, a, c).value.value else 0.0
  }

  lemma ConvertedValueOf(s: Settings, c: Currency, a: Amount)
    requires s.Valid() && c < 1000 && a.currency < 1000 && ConvertTo(s, a, c).Success?
    ensures ConvertedValue(s, c)(a) == ConvertTo(s, a, c).value.value
  {
    hide ConvertTo, Settings.Valid;
  }

  lemma SumOfFirstAndRest(f: Amount -> real, amounts: seq<Amount>)
    ensures SumOf(f, []) == 0.0
    ensures amounts != [] ==> SumOf(f, amounts) == f(amounts[0]) + SumOf(f, amounts[1..])
  {
  }

  lemma {:induction false} AutomatedTotalIsSum(s: Settings, acc: Amount, amounts: seq<Amount>)
    requires s.Valid() && s.conversion.AutomatedConversion? && acc.currency < 1000 && Codes(amounts)
    requires AllQuotable(s, amounts, acc.currency)
    ensures Total(s, acc, amounts)
         == Success(Amount(acc.value + SumOf(ConvertedValue(s, acc.currency), amounts), acc.currency))
    decreases |amounts|
  {
    hide *;
    var c := acc.currency;
    SumOfFirstAndRest(ConvertedValue(s, c), amounts);
    if amounts == [] {
      NothingToAdd(s, acc, amounts, c, 0.0);
    } else {
      RestOf(s, amounts, c);
      ConversionRoundsWorth(s, amounts[0], c);
      ConvertedValueOf(s, c, amounts[0]);
      AutomatedStep(s, acc, amounts);
      AutomatedTotalIsSum(s, Amount(acc.value + ConvertTo(s, amounts[0], c).value.value, c), amounts[1..]);
    }
  }

  /** In automated mode the order of the later addends does not matter. */
  lemma AutomatedOrder(s: Settings, acc: Amount, xs: seq<Amount>, ys: seq<Amount>)
    requires s.Valid() && s.conversion.AutomatedConversion? && acc.currency < 1000 && Codes(xs) && Codes(ys)
    requires AllQuotable(s, xs, acc.currency) && multiset(xs) == multiset(ys)
    ensures Total(s, acc, xs) == Total(s, acc, ys)
  {
    hide *;
    PermutedQuotable(s, xs, ys, acc.currency);
    AutomatedTotalIsSum(s, acc, xs);
    AutomatedTotalIsSum(s, acc, ys);
    SumOfPermutation(ConvertedValue(s, acc.currency), xs, ys);
  }

  lemma PermutedQuotable(s: Settings, xs: seq<Amount>, ys: seq<Amount>, c: Currency)
    requires s.Valid() && c < 1000 && Codes(xs) && Codes(ys)
    requires AllQuotable(s, xs, c) && multiset(xs) == multiset(ys)
    ensures AllQuotable(s, ys, c)
  {
    hide Quotable, Settings.Valid;
    forall i | 0 <= i < |ys| ensures Quotable(s, ys[i].currency, c) {
      var j := SameMembers(ys, xs, ys[i]);
    }
  }

  // ----- totals in base-currency mode -----

  lemma PlusInBase(s: Settings, a: Amount, b: Amount, x: Amount, y: Amount)
    requires s.Valid() && s.conversion.BaseCurrencyConversion?
    requires a.currency < 1000 && b.currency < 1000 && a.currency != b.currency
    requires ConvertToBase(s, a) == Success(x) && ConvertToBase(s, b) == Success(y)
    requires x.currency < 1000 && y.currency < 1000
    ensures Plus(s, a, b) == Plus(s, x, y)
  {
    hide ConvertTo, ConvertToBase, Settings.Valid;
  }

  lemma ConversionToBase(s: Settings, a: Amount, base: Currency)
    requires s.Valid() && s.base == Some(base) && a.currency < 1000
    ensures base < 1000 && ConvertToBase(s, a) == ConvertTo(s, a, base)
  {
    hide ConvertTo;
  }

  lemma PlusBase(s: Settings, a: Amount, b: Amount, base: Currency)
    requires s.Valid() && s.conversion.BaseCurrencyConversion? && s.base == Some(base) && base < 1000
    requires a.currency < 1000 && b.currency < 1000 && a.currency != b.currency
    requires ConvertTo(s, a, base).Success? && ConvertTo(s, b, base).Success?
    ensures Plus(s, a, b)
         == Success(Amount(ConvertTo(s, a, base).value.value + ConvertTo(s, b, base).value.value, base))
  {
    hide *;
    var x, y := ConvertTo(s, a, base).value, ConvertTo(s, b, base).value;
    ConversionToBase(s, a, base);
    ConversionToBase(s, b, base);
    PlusInBase(s, a, b, x, y);
    PlusSameCurrency(s, x, y);
  }

  lemma WorthAtHome(s: Settings, a: Amount)
    requires s.Valid() && a.currency < 1000
    ensures Quotable(s, a.currency, a.currency) && Worth(s, a, a.currency) == a.value
    ensures ConvertTo(s, a, a.currency) == Success(a)
  {
    TimesOver(a.value, 1.0);
  }

  /** An accumulator in the base currency stays there and errs by one rounding per foreign addend. */
  lemma {:induction false} BaseTotalFromBase(s: Settings, acc: Amount, amounts: seq<Amount>, base: Currency, u: real)
    requires s.Valid() && s.conversion.BaseCurrencyConversion? && s.base == Some(base)
    requires base < 1000 && acc.currency == base && Codes(amounts) && AllQuotable(s, amounts, base)
    requires Unit(s.rounding(base)) <= u
    ensures Total(s, acc, amounts).Success?
    ensures var r := Total(s, acc, amounts).value;
      && r.currency == base
      && Within(r.value, acc.value + WorthOfAll(s, amounts, base), ForeignCount(amounts, base), u)
    decreases |amounts|
  {
    hide *;
    if amounts == [] {
      NothingToAdd(s, acc, amounts, base, u);
    } else {
      var x, rest := amounts[0], amounts[1..];
      RestOf(s, amounts, base);
      ConversionError(s, x, base, u);
      WorthAtHome(s, acc);
      var y := ConvertTo(s, x, base).value.value;
      var next := Amount(acc.value + y, base);
      if x.currency == base {
        WorthAtHome(s, x);
        PlusSameCurrency(s, acc, x);
      } else {
        PlusBase(s, acc, x, base);
      }
      TotalStep(s, acc, amounts, next);
      BaseTotalFromBase(s, next, rest, base, u);
      var r := Total(s, next, rest).value;
      WithinShift(r.value, y, acc.value, WorthOfAll(s, rest, base), ForeignCount(rest, base), u);
      ErrorsAdd(y, Worth(s, x, base), r.value - y, acc.value + WorthOfAll(s, rest, base),
                r.value, acc.value + WorthOfAll(s, amounts, base), Foreign(x, base), ForeignCount(rest, base), u);
    }
  }

  lemma WorthOfSum(s: Settings, a: Amount, b: Amount, base: Currency)
    requires s.Valid() && a.currency == b.currency < 1000 && base < 1000 && Quotable(s, a.currency, base)
    ensures Worth(s, Amount(a.value + b.value, a.currency), base) == Worth(s, a, base) + Worth(s, b, base)
  {
    hide Times, Factor, Rate, Quotable, Settings.Valid;
    TimesDistributes(a.value, b.value, Factor(s, a.currency, base));
  }

  lemma BudgetGrows(m: nat, n: nat, u: real)
    requires m <= n && u >= 0.0
    ensures Budget(m, u) <= Budget(n, u)
  {
    TimesMonotone(m as real, n as real, u);
  }

  /** Amounts of one currency add up exactly, in every mode. */
  lemma {:induction false} SameCurrencyTotal(s: Settings, acc: Amount, amounts: seq<Amount>)
    requires s.Valid() && acc.currency < 1000 && Codes(amounts) && AllIn(amounts, acc.currency)
    ensures Total(s, acc, amounts) == Success(Amount(acc.value + ValueSum(amounts), acc.currency))
    decreases |amounts|
  {
    hide *;
    if amounts == [] {
      NothingToAdd(s, acc, amounts, acc.currency, 0.0);
    } else {
      CodeOf(amounts, 0);
      AllInRest(amounts, acc.currency);
      SumOfFirst(amounts);
      PlusSameCurrency(s, acc, amounts[0]);
      var next := Amount(acc.value + amounts[0].value, acc.currency);
      TotalStep(s, acc, amounts, next);
      SameCurrencyTotal(s, next, amounts[1..]);
    }
  }

  /** In base-currency mode the total of amounts in different currencies is in the base currency and errs by at most
      one rounding per amount that is not. */
  lemma {:induction false} BaseTotal(s: Settings, acc: Amount, amounts: seq<Amount>, base: Currency, u: real)
    requires s.Valid() && s.conversion.BaseCurrencyConversion? && s.base == Some(base)
    requires base < 1000 && acc.currency < 1000 && Quotable(s, acc.currency, base)
    requires Codes(amounts) && AllQuotable(s, amounts, base) && !AllIn(amounts, acc.currency)
    requires 0.0 <= u && Unit(s.rounding(base)) <= u
    ensures Total(s, acc, amounts).Success?
    ensures var r := Total(s, acc, amounts).value;
      && r.currency == base
      && Within(r.value, Worth(s, acc, base) + WorthOfAll(s, amounts, base),
                Foreign(acc, base) + ForeignCount(amounts, base), u)
    decreases |amounts|
  {
    hide *;
    if amounts == [] {
      NothingToAdd(s, acc, amounts, acc.currency, u);
    } else {
      var x, rest := amounts[0], amounts[1..];
      RestOf(s, amounts, base);
      AllInRest(amounts, acc.currency);
      if x.currency != acc.currency {
        BaseTotalMixed(s, acc, amounts, base, u);
      } else {
        var next := Amount(acc.value + x.value, acc.currency);
        ForeignOf(acc, next, base);
        PlusSameCurrency(s, acc, x);
        TotalStep(s, acc, amounts, next);
        BaseTotal(s, next, rest, base, u);
        WorthOfSum(s, acc, x, base);
        WidenError(Total(s, acc, amounts).value.value,
                   Worth(s, next, base) + WorthOfAll(s, rest, base), Worth(s, acc, base) + WorthOfAll(s, amounts, base),
                   Foreign(next, base) + ForeignCount(rest, base), Foreign(acc, base) + ForeignCount(amounts, base), u);
      }
    }
  }

  lemma AllInRest(amounts: seq<Amount>, c: Currency)
    requires amounts != []
    ensures AllIn(amounts, c) <==> amounts[0].currency == c && AllIn(amounts[1..], c)
  {
    if amounts[0].currency == c && AllIn(amounts[1..], c) {
      forall i | 0 <= i < |amounts| ensures amounts[i].currency == c {
        if i > 0 {
          assert amounts[1..][i - 1] == amounts[i];
        }
      }
    }
  }

  lemma WithinSum(v: real, x: real, w: real, n: nat, u: real)
    requires Within(v, x + w, n, u)
    ensures Within(v - x, w, n, u)
  {
  }

  lemma WidenError(v: real, w: real, w': real, m: nat, n: nat, u: real)
    requires Within(v, w, m, u) && w == w' && m <= n && u >= 0.0
    ensures Within(v, w', n, u)
  {
    BudgetGrows(m, n, u);
  }

  lemma SumOfFirst(amounts: seq<Amount>)
    requires amounts != []
    ensures ValueSum(amounts) == amounts[0].value + ValueSum(amounts[1..])
  {
  }

  lemma ForeignOf(a: Amount, b: Amount, base: Currency)
    requires a.currency == b.currency
    ensures Foreign(a, base) == Foreign(b, base)
  {
  }

  lemma BaseTotalMixed(s: Settings, acc: Amount, amounts: seq<Amount>, base: Currency, u: real)
    requires s.Valid() && s.conversion.BaseCurrencyConversion? && s.base == Some(base)
    requires base < 1000 && acc.currency < 1000 && Quotable(s, acc.currency, base)
    requires Codes(amounts) && AllQuotable(s, amounts, base) && amounts != []
    requires amounts[0].currency != acc.currency
    requires 0.0 <= u && Unit(s.rounding(base)) <= u
    ensures Total(s, acc, amounts).Success?
    ensures var r := Total(s, acc, amounts).value;
      && r.currency == base
      && Within(r.value, Worth(s, acc, base) + WorthOfAll(s, amounts, base),
                Foreign(acc, base) + ForeignCount(amounts, base), u)
  {
    hide *;
    var x, rest := amounts[0], amounts[1..];
    RestOf(s, amounts, base);
    ConversionError(s, acc, base, u);
    ConversionError(s, x, base, u);
    PlusBase(s, acc, x, base);
    var y, z := ConvertTo(s, acc, base).value.value, ConvertTo(s, x, base).value.value;
    var next := Amount(y + z, base);
    TotalStep(s, acc, amounts, next);
    BaseTotalFromBase(s, next, rest, base, u);
    var r := Total(s, next, rest).value;
    ErrorsAdd(y, Worth(s, acc, base), z, Worth(s, x, base), y + z, Worth(s, acc, base) + Worth(s, x, base),
              Foreign(acc, base), Foreign(x, base), u);
    WithinSum(r.value, y + z, WorthOfAll(s, rest, base), ForeignCount(rest, base), u);
    ErrorsAdd(y + z, Worth(s, acc, base) + Worth(s, x, base), r.value - (y + z), WorthOfAll(s, rest, base),
              r.value, Worth(s, acc, base) + WorthOfAll(s, amounts, base),
              Foreign(acc, base) + Foreign(x, base), ForeignCount(rest, base), u);
  }
}
