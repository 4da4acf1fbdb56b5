/** Exchange rates between two currencies, quoted or derived by chaining (ql/exchangerate.hpp, ql/exchangerate.cpp). */
module ExchangeRates {
  import opened RealArithmetic
  import opened Results

  /** A currency, identified by its numeric code. */
  type Currency = nat

  datatype Amount = Amount(value: real, currency: Currency)

  datatype ExchangeRate =
    | Direct(source: Currency, target: Currency, rate: real)
    | Derived(source: Currency, target: Currency, rate: real, first: ExchangeRate, second: ExchangeRate)

  datatype RateError = NotApplicable | NotChainable | NoConversion

  // ----- exchange and chain -----

  /** No stored rate is zero. */
  predicate NonZero(r: ExchangeRate) {
    r.rate != 0.0 && (r.Derived? ==> NonZero(r.first) && NonZero(r.second))
  }

  predicate Connects(r: ExchangeRate, c: Currency) {
    c == r.source || c == r.target
  }

  /** Applies a rate to an amount: a derived rate sends it through its two components. */
  function Exchange(r: ExchangeRate, amount: Amount): Result<Amount, RateError>
    requires NonZero(r)
  {
    match r
    case Direct(source, target, rate) =>
      if amount.currency == source then Success(Amount(Times(amount.value, rate), target))
      else if amount.currency == target then Success(Amount(Over(amount.value, rate), source))
      else Failure(NotApplicable)
    case Derived(_, _, _, first, second) =>
      if Connects(first, amount.currency) then
        var middle :- Exchange(first, amount);
        Exchange(second, middle)
      else if Connects(second, amount.currency) then
        var middle :- Exchange(second, amount);
        Exchange(first, middle)
      else Failure(NotApplicable)
  }

  function Chain(r1: ExchangeRate, r2: ExchangeRate): Result<ExchangeRate, RateError>
    requires r1.rate != 0.0 && r2.rate != 0.0
  {
    TwoFactors(1.0, r1.rate, r2.rate);
    if r1.source == r2.source then
      Success(Derived(r1.target, r2.target, Over(r2.rate, r1.rate), r1, r2))
    else if r1.source == r2.target then
      Success(Derived(r1.target, r2.source, Over(1.0, Times(r1.rate, r2.rate)), r1, r2))
    else if r1.target == r2.source then
      Success(Derived(r1.source, r2.target, Times(r1.rate, r2.rate), r1, r2))
    else if r1.target == r2.target then
      Success(Derived(r1.source, r2.source, Over(r1.rate, r2.rate), r1, r2))
    else
      Failure(NotChainable)
  }

  /** Built from non-zero quotes by `Chain`, with different currencies at the two ends of every component. */
  predicate WellFormed(r: ExchangeRate) {
    && r.rate != 0.0 && r.source != r.target
    && (r.Derived? ==> WellFormed(r.first) && WellFormed(r.second) && Chain(r.first, r.second) == Success(r))
  }

  lemma {:induction false} WellFormedIsNonZero(r: ExchangeRate)
    requires WellFormed(r)
    ensures NonZero(r)
  {
    if r.Derived? {
      WellFormedIsNonZero(r.first);
      WellFormedIsNonZero(r.second);
    }
  }

  /** What a rate means: multiplication from source to target, division back, nothing else. */
  function Converted(r: ExchangeRate, amount: Amount): Result<Amount, RateError>
    requires r.rate != 0.0
  {
    if amount.currency == r.source then Success(Amount(Times(amount.value, r.rate), r.target))
    else if amount.currency == r.target then Success(Amount(Over(amount.value, r.rate), r.source))
    else Failure(NotApplicable)
  }

  /** However deep the chain, exchanging succeeds exactly on the two end currencies and agrees with the stored rate. */
  lemma {:induction false} ExchangeMatchesRate(r: ExchangeRate, amount: Amount)
    requires WellFormed(r)
    ensures NonZero(r) && Exchange(r, amount) == Converted(r, amount)
  {
    WellFormedIsNonZero(r);
    if r.Derived? {
      var first, second := r.first, r.second;
      TwoFactors(amount.value, first.rate, second.rate);
      TwoFactors(amount.value, second.rate, first.rate);
      assert Times(second.rate, first.rate) == Times(first.rate, second.rate);
      ExchangeMatchesRate(first, amount);
      ExchangeMatchesRate(second, amount);
      if Connects(first, amount.currency) {
        ExchangeMatchesRate(second, Converted(first, amount).value);
      } else if Connects(second, amount.currency) {
        ExchangeMatchesRate(first, Converted(second, amount).value);
      }
    }
  }

  /** That is, an amount in the source is multiplied by the stored rate and one in the target divided by it. */
  lemma ExchangeMultiplies(r: ExchangeRate, amount: Amount)
    requires WellFormed(r)
    ensures NonZero(r)
    ensures Connects(r, amount.currency) ==>
      var x := Exchange(r, amount);
      && x.Success?
      && (amount.currency == r.source ==> x.value.currency == r.target && x.value.value == amount.value * r.rate)
      && (amount.currency == r.target ==> x.value.currency == r.source && x.value.value == amount.value / r.rate)
    ensures amount.currency != r.source && amount.currency != r.target ==>
      Exchange(r, amount) == Failure(NotApplicable)
  {
    hide Times, Over, Converted;
    ExchangeMatchesRate(r, amount);
    ConvertedMeans(r, amount);
  }

  lemma ConvertedMeans(r: ExchangeRate, amount: Amount)
    requires r.rate != 0.0 && r.source != r.target
    ensures Connects(r, amount.currency) ==>
      var x := Converted(r, amount);
      && x.Success?
      && (amount.currency == r.source ==> x.value.currency == r.target && x.value.value == amount.value * r.rate)
      && (amount.currency == r.target ==> x.value.currency == r.source && x.value.value == amount.value / r.rate)
    ensures !Connects(r, amount.currency) ==> Converted(r, amount) == Failure(NotApplicable)
  {
  }

  /** Exchanging there and back returns the original amount. */
  lemma ExchangeRoundTrip(r: ExchangeRate, amount: Amount)
    requires WellFormed(r) && Connects(r, amount.currency)
    ensures NonZero(r)
    ensures var there := Exchange(r, amount);
      there.Success? && Exchange(r, there.value) == Success(amount)
  {
    ExchangeMatchesRate(r, amount);
    ExchangeMatchesRate(r, Converted(r, amount).value);
    TimesOver(amount.value, r.rate);
  }

  predicate ShareOne(r1: ExchangeRate, r2: ExchangeRate) {
    (Connects(r2, r1.source) || Connects(r2, r1.target)) && !(Connects(r2, r1.source) && Connects(r2, r1.target))
  }

  /** Chaining two rates is meaningful exactly when they share one currency: sharing none it fails,
      sharing both it has the same currency at both ends. */
  lemma ChainIsWellFormed(r1: ExchangeRate, r2: ExchangeRate)
    requires WellFormed(r1) && WellFormed(r2)
    ensures Chain(r1, r2).Success? <==> Connects(r2, r1.source) || Connects(r2, r1.target)
    ensures (Chain(r1, r2).Success? && WellFormed(Chain(r1, r2).value)) <==> ShareOne(r1, r2)
  {
    TwoFactors(1.0, r1.rate, r2.rate);
  }

  /** The derived rate exchanges every amount by the rate it stores, and refuses every currency that is not at one of
      its ends, exactly when the two rates share one currency. */
  lemma ChainExchangesByItsRate(r1: ExchangeRate, r2: ExchangeRate)
    requires WellFormed(r1) && WellFormed(r2) && Chain(r1, r2).Success?
    ensures var r := Chain(r1, r2).value;
      && NonZero(r)
      && ((forall v: real, c: Currency :: Exchange(r, Amount(v, c)) == Converted(r, Amount(v, c)))
          <==> ShareOne(r1, r2))
  {
    WellFormedIsNonZero(r1);
    WellFormedIsNonZero(r2);
    TwoFactors(1.0, r1.rate, r2.rate);
    ChainIsWellFormed(r1, r2);
    var r := Chain(r1, r2).value;
    hide Times, Over;
    if ShareOne(r1, r2) {
      forall v: real, c: Currency ensures Exchange(r, Amount(v, c)) == Converted(r, Amount(v, c)) {
        ExchangeMatchesRate(r, Amount(v, c));
      }
    } else {
      MiddleIsExchanged(r1, r2, Amount(1.0, r1.source));
    }
  }

  /** With both currencies shared, the one that is at neither end is sent through both rates all the same. */
  lemma MiddleIsExchanged(r1: ExchangeRate, r2: ExchangeRate, amount: Amount)
    requires WellFormed(r1) && WellFormed(r2) && Chain(r1, r2).Success? && !ShareOne(r1, r2)
    requires amount.currency == r1.source && NonZero(Chain(r1, r2).value)
    ensures var r := Chain(r1, r2).value;
      r.source == r.target != amount.currency && Exchange(r, amount).Success? && Converted(r, amount).Failure?
  {
    ExchangeMatchesRate(r1, amount);
    ExchangeMatchesRate(r2, Converted(r1, amount).value);
    hide Times, Over;
  }

  /** When the two rates share both currencies, the derived rate exchanges a currency that is at neither of its ends. */
  lemma SharingBothMisleads()
    ensures var r := Chain(Direct(1, 2, 2.0), Direct(1, 2, 4.0));
      && r.Success? && r.value.source == r.value.target == 2
      && NonZero(r.value) && Exchange(r.value, Amount(6.0, 1)).Success?
  {
    TwoFactors(1.0, 2.0, 4.0);
    var r := Chain(Direct(1, 2, 2.0), Direct(1, 2, 4.0)).value;
    assert Exchange(r.first, Amount(6.0, 1)) == Success(Amount(Times(6.0, 2.0), 2));
    assert Exchange(r.second, Amount(Times(6.0, 2.0), 2)).Success?;
  }

  // ----- paths -----

  /** The rate read from one of its currencies to the other. */
  function Oriented(r: ExchangeRate, from: Currency): real
    requires r.rate != 0.0
  {
    if from == r.source then r.rate else Over(1.0, r.rate)
  }

  /** The rates lead along the currencies, each in either orientation. */
  predicate Path(cs: seq<Currency>, rs: seq<ExchangeRate>) {
    && |cs| == |rs| + 1
    && forall i :: 0 <= i < |rs| ==>
        WellFormed(rs[i]) && {rs[i].source, rs[i].target} == {cs[i], cs[i + 1]}
  }

  predicate Distinct(cs: seq<Currency>) {
    forall i, j :: 0 <= i < j < |cs| ==> cs[i] != cs[j]
  }

  function PathRate(cs: seq<Currency>, rs: seq<ExchangeRate>): real
    requires Path(cs, rs)
  {
    if rs == [] then 1.0
    else Times(PathRate(cs[..|rs|], rs[..|rs| - 1]), Oriented(rs[|rs| - 1], cs[|rs| - 1]))
  }

  /** A way to bracket the chaining of a sequence of rates. */
  datatype Bracketing = Single | Pair(left: Bracketing, right: Bracketing)

  function Size(b: Bracketing): (n: nat)
    ensures n >= 1
  {
    match b
    case Single => 1
    case Pair(l, r) => Size(l) + Size(r)
  }

  function Chained(b: Bracketing, rs: seq<ExchangeRate>): Result<ExchangeRate, RateError>
    requires |rs| == Size(b)
  {
    match b
    case Single => Success(rs[0])
    case Pair(l, r) =>
      var left :- Chained(l, rs[..Size(l)]);
      var right :- Chained(r, rs[Size(l)..]);
      if left.rate != 0.0 && right.rate != 0.0 then Chain(left, right) else Failure(NotChainable)
  }

  /** The rate leads from `a` to `b`, in either orientation, with oriented rate `x`. */
  predicate Leads(r: ExchangeRate, a: Currency, b: Currency, x: real) {
    WellFormed(r) && {r.source, r.target} == {a, b} && Oriented(r, a) == x
  }

  lemma ChainLeads(r1: ExchangeRate, r2: ExchangeRate, a: Currency, m: Currency, b: Currency, x: real, y: real)
    requires a != m && m != b && a != b && Leads(r1, a, m, x) && Leads(r2, m, b, y)
    ensures Chain(r1, r2).Success?
    ensures var r := Chain(r1, r2).value;
      Leads(r, a, b, Times(x, y)) && r.source == a && r.target == b && r.rate == Times(x, y)
  {
    EndsAre(r1, a, m);
    EndsAre(r2, m, b);
    TwoFactors(1.0, r1.rate, r2.rate);
    OrientedProducts(r1.rate, r2.rate);
    hide Times, Over, NonZero;
  }

  lemma EndsAre(r: ExchangeRate, a: Currency, b: Currency)
    requires {r.source, r.target} == {a, b} && a != b
    ensures (r.source == a && r.target == b) || (r.source == b && r.target == a)
  {
    assert r.source in {a, b} && r.target in {a, b} && a in {r.source, r.target} && b in {r.source, r.target};
  }

  lemma OrientedProducts(r: real, s: real)
    requires r != 0.0 && s != 0.0
    ensures Times(r, s) != 0.0
    ensures Times(Over(1.0, r), s) == Over(s, r)
    ensures Times(r, Over(1.0, s)) == Over(r, s)
    ensures Times(Over(1.0, r), Over(1.0, s)) == Over(1.0, Times(r, s))
  {
    TwoFactors(1.0, r, s);
  }

  lemma PathParts(cs: seq<Currency>, rs: seq<ExchangeRate>, k: nat)
    requires Path(cs, rs) && k <= |rs|
    ensures Path(cs[..k + 1], rs[..k]) && Path(cs[k..], rs[k..])
  {
    hide WellFormed;
  }

  /** The last rate of a path multiplies the rate of the others. */
  lemma PathRateLast(cs: seq<Currency>, rs: seq<ExchangeRate>)
    requires Path(cs, rs) && |rs| > 0
    ensures var n := |rs|;
      && rs[n - 1].rate != 0.0 && Path(cs[..n], rs[..n - 1])
      && PathRate(cs, rs) == Times(PathRate(cs[..n], rs[..n - 1]), Oriented(rs[n - 1], cs[n - 1]))
  {
    hide Times, Oriented;
  }

  lemma {:induction false} PathRateSplit(cs: seq<Currency>, rs: seq<ExchangeRate>, k: nat)
    requires Path(cs, rs) && k <= |rs|
    ensures Path(cs[..k + 1], rs[..k]) && Path(cs[k..], rs[k..])
    ensures PathRate(cs, rs) == Times(PathRate(cs[..k + 1], rs[..k]), PathRate(cs[k..], rs[k..]))
    decreases |rs|
  {
    var n := |rs|;
    PathParts(cs, rs, k);
    if k == n {
      assert cs[..k + 1] == cs && rs[..k] == rs && rs[k..] == [];
      TimesOver(PathRate(cs, rs), 1.0);
    } else {
      hide Times, Oriented, PathRate, Path;
      PathRateLast(cs, rs);
      PathRateLast(cs[k..], rs[k..]);
      PathRateSplit(cs[..n], rs[..n - 1], k);
      assert cs[..n][..k + 1] == cs[..k + 1] && rs[..n - 1][..k] == rs[..k];
      assert cs[..n][k..] == cs[k..][..n - k] && rs[..n - 1][k..] == rs[k..][..n - k - 1];
      var x, y := PathRate(cs[..k + 1], rs[..k]), PathRate(cs[k..][..n - k], rs[k..][..n - k - 1]);
      TimesAssociative(x, y, Oriented(rs[n - 1], cs[n - 1]));
    }
  }

  lemma PathRateOfOne(cs: seq<Currency>, rs: seq<ExchangeRate>)
    requires Path(cs, rs) && |rs| == 1
    ensures PathRate(cs, rs) == Oriented(rs[0], cs[0])
  {
    assert rs[..0] == [];
    TimesOver(Oriented(rs[0], cs[0]), 1.0);
  }

  /** Every bracketing of a path over distinct currencies leads from its first to its last currency at the product
      of the oriented rates; with at least two rates the source is the first and the target the last currency. */
  lemma {:induction false} BracketingsAgree(b: Bracketing, cs: seq<Currency>, rs: seq<ExchangeRate>)
    requires Path(cs, rs) && Distinct(cs) && |rs| == Size(b)
    ensures Chained(b, rs).Success?
    ensures Leads(Chained(b, rs).value, cs[0], cs[|rs|], PathRate(cs, rs))
    ensures b.Pair? ==> Chained(b, rs).value.source == cs[0] && Chained(b, rs).value.target == cs[|rs|]
    ensures b.Pair? ==> Chained(b, rs).value.rate == PathRate(cs, rs)
  {
    match b
    case Single => PathRateOfOne(cs, rs);
    case Pair(l, r) =>
      var k := Size(l);
      PathRateSplit(cs, rs, k);
      BracketingsAgree(l, cs[..k + 1], rs[..k]);
      BracketingsAgree(r, cs[k..], rs[k..]);
      ChainLeads(Chained(l, rs[..k]).value, Chained(r, rs[k..]).value, cs[0], cs[k], cs[|rs|],
                 PathRate(cs[..k + 1], rs[..k]), PathRate(cs[k..], rs[k..]));
  }

  /** Swapping the arguments of `Chain` swaps source and target and inverts the rate. */
  lemma ChainSwapped(r1: ExchangeRate, r2: ExchangeRate)
    requires WellFormed(r1) && WellFormed(r2) && ShareOne(r1, r2)
    ensures Chain(r1, r2).Success? && Chain(r2, r1).Success?
    ensures var r, s := Chain(r1, r2).value, Chain(r2, r1).value;
      r.rate != 0.0 && s.source == r.target && s.target == r.source && s.rate == Over(1.0, r.rate)
  {
    TwoFactors(1.0, r1.rate, r2.rate);
    TwoFactors(1.0, r2.rate, r1.rate);
    TimesOver(1.0, Times(r1.rate, r2.rate));
    assert Times(r1.rate, r2.rate) == Times(r2.rate, r1.rate);
    assert Over(1.0, Over(r1.rate, r2.rate)) == Over(r2.rate, r1.rate);
    assert Over(1.0, Over(r2.rate, r1.rate)) == Over(r1.rate, r2.rate);
    assert Over(1.0, Over(1.0, Times(r1.rate, r2.rate))) == Times(r1.rate, r2.rate);
  }

  function Reverse<T>(s: seq<T>): (r: seq<T>)
    ensures |r| == |s|
  {
    if s == [] then [] else Reverse(s[1..]) + [s[0]]
  }

  lemma {:induction false} ReverseAt<T>(s: seq<T>, i: nat)
    requires i < |s|
    ensures Reverse(s)[i] == s[|s| - 1 - i]
  {
    if i < |s| - 1 {
      ReverseAt(s[1..], i);
    }
  }

  function Mirror(b: Bracketing): (m: Bracketing)
    ensures Size(m) == Size(b)
  {
    match b
    case Single => Single
    case Pair(l, r) => Pair(Mirror(r), Mirror(l))
  }

  lemma ReversedPath(cs: seq<Currency>, rs: seq<ExchangeRate>)
    requires Path(cs, rs)
    ensures Path(Reverse(cs), Reverse(rs))
    ensures Distinct(cs) ==> Distinct(Reverse(cs))
  {
    var n := |rs|;
    forall i | 0 <= i <= n ensures Reverse(cs)[i] == cs[n - i] {
      ReverseAt(cs, i);
    }
    forall i | 0 <= i < n ensures Reverse(rs)[i] == rs[n - 1 - i] {
      ReverseAt(rs, i);
    }
  }

  lemma OrientedBothWays(r: ExchangeRate, a: Currency, b: Currency)
    requires WellFormed(r) && {r.source, r.target} == {a, b} && a != b
    ensures Oriented(r, a) != 0.0 && Oriented(r, b) == Over(1.0, Oriented(r, a))
  {
    EndsAre(r, a, b);
    TimesOver(1.0, r.rate);
    assert Over(1.0, Over(1.0, r.rate)) == r.rate;
  }

  lemma InverseOfProduct(x: real, y: real)
    requires x != 0.0 && y != 0.0
    ensures Times(x, y) != 0.0 && Times(Over(1.0, y), Over(1.0, x)) == Over(1.0, Times(x, y))
  {
    TwoFactors(1.0, x, y);
  }

  lemma {:induction false} ReversedPathRate(cs: seq<Currency>, rs: seq<ExchangeRate>)
    requires Path(cs, rs) && Distinct(cs)
    ensures Path(Reverse(cs), Reverse(rs))
    ensures PathRate(cs, rs) != 0.0 && PathRate(Reverse(cs), Reverse(rs)) == Over(1.0, PathRate(cs, rs))
    decreases |rs|
  {
    ReversedPath(cs, rs);
    if rs != [] {
      var n := |rs|;
      PathRateSplit(cs, rs, 1);
      PathRateOfOne(cs[..2], rs[..1]);
      ReversedPathRate(cs[1..], rs[1..]);
      OrientedBothWays(rs[0], cs[0], cs[1]);
      InverseOfProduct(Oriented(rs[0], cs[0]), PathRate(cs[1..], rs[1..]));
      assert Reverse(rs)[..n - 1] == Reverse(rs[1..]) && Reverse(rs)[n - 1] == rs[0];
      assert Reverse(cs)[..n] == Reverse(cs[1..]) && Reverse(cs)[n - 1] == cs[1] by {
        ReverseAt(cs, n - 1);
      }
    }
  }

  /** Chaining the reversed sequence with the mirrored bracketing swaps source and target and inverts the rate. */
  lemma MirrorInverts(b: Bracketing, cs: seq<Currency>, rs: seq<ExchangeRate>)
    requires b.Pair? && Path(cs, rs) && Distinct(cs) && |rs| == Size(b)
    ensures Chained(b, rs).Success? && Chained(Mirror(b), Reverse(rs)).Success?
    ensures var r, m := Chained(b, rs).value, Chained(Mirror(b), Reverse(rs)).value;
      r.rate != 0.0 && m.source == r.target && m.target == r.source && m.rate == Over(1.0, r.rate)
  {
    ReversedPath(cs, rs);
    ReversedPathRate(cs, rs);
    BracketingsAgree(b, cs, rs);
    BracketingsAgree(Mirror(b), Reverse(cs), Reverse(rs));
    ReverseAt(cs, 0);
    ReverseAt(cs, |rs|);
  }
}
