/** The exchange-rate repository and its search for a chain of quotes (ql/currencies/exchangeratemanager.*). */
module RateManagers {
  import opened ExchangeRates
  import opened Orderings
  import opened RealArithmetic
  import opened Results

  type Date = int
  type Key = int

  datatype Entry = Entry(rate: ExchangeRate, startDate: Date, endDate: Date)

  type Rates = map<Key, seq<Entry>>

  function Hash(c1: Currency, c2: Currency): Key {
    if c1 <= c2 then c1 * 1000 + c2 else c2 * 1000 + c1
  }

  predicate Hashes(k: Key, c: Currency) {
    c == k % 1000 || c == k / 1000
  }

  function CodesBelow(n: nat): (r: set<Currency>)
    ensures forall c: nat :: c in r <==> c < n
  {
    if n == 0 then {} else CodesBelow(n - 1) + {n - 1}
  }

  function Codes(): set<Currency> {
    CodesBelow(1000)
  }

  /** Three-digit numeric codes make the hash of a pair of currencies unique. */
  lemma HashIsUnique(a: Currency, b: Currency, c: Currency, d: Currency)
    requires a < 1000 && b < 1000 && c < 1000 && d < 1000
    ensures Hash(a, b) == Hash(c, d) <==> {a, b} == {c, d}
    ensures Hashes(Hash(a, b), c) <==> c == a || c == b
  {
    var k, l := Hash(a, b), Hash(c, d);
    var lo, hi := if a <= b then a else b, if a <= b then b else a;
    var lo', hi' := if c <= d then c else d, if c <= d then d else c;
    assert k / 1000 == lo && k % 1000 == hi;
    assert l / 1000 == lo' && l % 1000 == hi';
    assert {a, b} == {lo, hi} && {c, d} == {lo', hi'};
    if {lo, hi} == {lo', hi'} {
      assert lo in {lo', hi'} && hi in {lo', hi'} && lo' in {lo, hi} && hi' in {lo, hi};
    }
  }

  /** Rates are filed under the hash of their currencies. */
  ghost predicate Filed(data: Rates) {
    forall k, e :: k in data && e in data[k] ==>
      && WellFormed(e.rate)
      && e.rate.source < 1000 && e.rate.target < 1000
      && Hash(e.rate.source, e.rate.target) == k
  }

  /** The first entry that is valid at a date. */
  function FirstValid(es: seq<Entry>, date: Date): Option<ExchangeRate> {
    if es == [] then None
    else if es[0].startDate <= date <= es[0].endDate then Some(es[0].rate)
    else FirstValid(es[1..], date)
  }

  function Fetch(data: Rates, source: Currency, target: Currency, date: Date): Option<ExchangeRate> {
    var k := Hash(source, target);
    if k in data then FirstValid(data[k], date) else None
  }

  lemma {:induction false} FirstValidIsListed(es: seq<Entry>, date: Date)
    ensures FirstValid(es, date).Some? ==>
      exists e :: e in es && e.rate == FirstValid(es, date).value && e.startDate <= date <= e.endDate
  {
    if es != [] {
      if es[0].startDate <= date <= es[0].endDate {
        assert es[0] in es;
      } else {
        FirstValidIsListed(es[1..], date);
      }
    }
  }

  /** A fetched rate is a well-formed rate between the two currencies. */
  lemma FetchedRate(data: Rates, source: Currency, target: Currency, date: Date)
    requires Filed(data) && source < 1000 && target < 1000
    requires Fetch(data, source, target, date).Some?
    ensures var r := Fetch(data, source, target, date).value;
      WellFormed(r) && {r.source, r.target} == {source, target}
    ensures Hash(source, target) in data && data[Hash(source, target)] != []
    ensures source != target
  {
    var k := Hash(source, target);
    FirstValidIsListed(data[k], date);
    var e :| e in data[k] && e.rate == FirstValid(data[k], date).value;
    HashIsUnique(source, target, e.rate.source, e.rate.target);
    assert e.rate.source in {source, target} && e.rate.target in {source, target};
  }

  /** The entry is filed and valid at the date, and quotes the pair in one orientation or the other. */
  predicate QuotesPair(data: Rates, k: Key, e: Entry, source: Currency, target: Currency, date: Date) {
    && k in data && e in data[k]
    && {e.rate.source, e.rate.target} == {source, target} && e.startDate <= date <= e.endDate
  }

  /** A rate is fetched exactly when some entry quotes the pair, and no entry before it in the list is valid. */
  lemma FetchDecides(data: Rates, source: Currency, target: Currency, date: Date)
    requires Filed(data) && source < 1000 && target < 1000
    ensures Fetch(data, source, target, date).Some? <==>
      exists k, e :: QuotesPair(data, k, e, source, target, date)
    ensures Fetch(data, source, target, date).Some? ==>
      exists k, i: nat :: k in data && i < |data[k]| && QuotesPair(data, k, data[k][i], source, target, date)
        && Fetch(data, source, target, date).value == data[k][i].rate
        && forall j :: 0 <= j < i ==> !(data[k][j].startDate <= date <= data[k][j].endDate)
  {
    var k := Hash(source, target);
    if Fetch(data, source, target, date).Some? {
      var i := FirstValidAt(data[k], date);
      var e := data[k][i];
      assert e in data[k];
      HashIsUnique(source, target, e.rate.source, e.rate.target);
      assert QuotesPair(data, k, e, source, target, date);
    }
    if exists l, e :: QuotesPair(data, l, e, source, target, date) {
      var l, e :| QuotesPair(data, l, e, source, target, date);
      PairKey(e.rate.source, e.rate.target, source, target);
      ValidIsFound(data[k], e, date);
    }
  }

  lemma PairKey(a: Currency, b: Currency, c: Currency, d: Currency)
    requires {a, b} == {c, d}
    ensures Hash(a, b) == Hash(c, d)
  {
    assert a in {c, d} && b in {c, d} && c in {a, b} && d in {a, b};
  }

  lemma {:induction false} FirstValidAt(es: seq<Entry>, date: Date) returns (i: nat)
    requires FirstValid(es, date).Some?
    ensures i < |es| && es[i].rate == FirstValid(es, date).value && es[i].startDate <= date <= es[i].endDate
    ensures forall j :: 0 <= j < i ==> !(es[j].startDate <= date <= es[j].endDate)
  {
    if es[0].startDate <= date <= es[0].endDate {
      i := 0;
    } else {
      i := FirstValidAt(es[1..], date);
      i := i + 1;
    }
  }

  lemma {:induction false} ValidIsFound(es: seq<Entry>, e: Entry, date: Date)
    requires e in es && e.startDate <= date <= e.endDate
    ensures FirstValid(es, date).Some?
  {
    if !(es[0].startDate <= date <= es[0].endDate) {
      ValidIsFound(es[1..], e, date);
    }
  }

  // ----- the search -----

  /** The other currency of the latest rate filed under a key. */
  function Other(data: Rates, k: Key, source: Currency): (r: Option<Currency>)
    requires k in data
    ensures r.Some? ==> data[k] != []
  {
    if Hashes(k, source) && data[k] != [] then
      var rate := data[k][0].rate;
      Some(if source == rate.source then rate.target else rate.source)
    else None
  }

  lemma OtherEnd(data: Rates, k: Key, source: Currency)
    requires Filed(data) && k in data && source < 1000 && Other(data, k, source).Some?
    ensures var other := Other(data, k, source).value;
      other < 1000 && k == Hash(source, other)
  {
    var e := data[k][0];
    assert e in data[k];
    HashIsUnique(e.rate.source, e.rate.target, source, source);
  }

  /** The search takes a quote of the pair if there is one, and otherwise goes on from every currency quoted against
      the source that has not been visited. */
  function SmartLookup(data: Rates, source: Currency, target: Currency, date: Date, forbidden: set<Currency>):
    Result<ExchangeRate, RateError>
    requires Filed(data) && source < 1000 && target < 1000 && source !in forbidden
    decreases Codes() - forbidden, 1, 0
  {
    match Fetch(data, source, target, date)
    case Some(rate) => Success(rate)
    case None =>
      assert source in Codes() - forbidden;
      SortedMembers(data.Keys);
      TryKeys(data, Sorted(data.Keys), source, target, date, forbidden + {source})
  }

  function TryKeys(data: Rates, keys: seq<Key>, source: Currency, target: Currency, date: Date,
                   forbidden: set<Currency>):
    Result<ExchangeRate, RateError>
    requires Filed(data) && source < 1000 && target < 1000 && forall k :: k in keys ==> k in data
    decreases Codes() - forbidden, 2, |keys|
  {
    if keys == [] then Failure(NoConversion)
    else
      var r := TryKey(data, keys[0], source, target, date, forbidden);
      if r.Success? then r else TryKeys(data, keys[1..], source, target, date, forbidden)
  }

  function TryKey(data: Rates, k: Key, source: Currency, target: Currency, date: Date, forbidden: set<Currency>):
    Result<ExchangeRate, RateError>
    requires Filed(data) && source < 1000 && target < 1000 && k in data
    decreases Codes() - forbidden, 2, 0
  {
    var other := Other(data, k, source);
    if other.None? || other.value in forbidden then Failure(NoConversion)
    else
      OtherEnd(data, k, source);
      match Fetch(data, source, other.value, date)
      case None => Failure(NoConversion)
      case Some(head) =>
        var tail :- SmartLookup(data, other.value, target, date, forbidden);
        if head.rate != 0.0 && tail.rate != 0.0 then Chain(head, tail) else Failure(NotChainable)
  }

  /** The keys are ordered by the smaller and then by the larger code of their pairs. */
  lemma KeysInOrder(a: Currency, b: Currency, c: Currency, d: Currency)
    requires a <= b < 1000 && c <= d < 1000
    ensures Hash(a, b) == Hash(b, a) && (Hash(a, b) < Hash(c, d) <==> a < c || (a == c && b < d))
  {
  }

  lemma {:induction false} FirstKeyTaken(data: Rates, keys: seq<Key>, source: Currency, target: Currency, date: Date,
                                         forbidden: set<Currency>) returns (i: nat)
    requires Filed(data) && source < 1000 && target < 1000 && forall k :: k in keys ==> k in data
    requires TryKeys(data, keys, source, target, date, forbidden).Success?
    ensures i < |keys| && TryKey(data, keys[i], source, target, date, forbidden).Success?
    ensures TryKeys(data, keys, source, target, date, forbidden)
         == TryKey(data, keys[i], source, target, date, forbidden)
    ensures forall j :: 0 <= j < i ==> TryKey(data, keys[j], source, target, date, forbidden).Failure?
    decreases |keys|
  {
    hide TryKey, Filed;
    if TryKey(data, keys[0], source, target, date, forbidden).Success? {
      i := 0;
    } else {
      i := FirstKeyTaken(data, keys[1..], source, target, date, forbidden);
      i := i + 1;
    }
  }

  /** Without a quote of the pair the search takes the least key from which it gets to the target. */
  lemma SearchTakesLeastKey(data: Rates, source: Currency, target: Currency, date: Date, forbidden: set<Currency>)
    returns (k: Key)
    requires Filed(data) && source < 1000 && target < 1000 && source !in forbidden
    requires Fetch(data, source, target, date).None?
    requires SmartLookup(data, source, target, date, forbidden).Success?
    ensures k in data
    ensures SmartLookup(data, source, target, date, forbidden)
         == TryKey(data, k, source, target, date, forbidden + {source})
    ensures forall l :: l in data && l < k ==> TryKey(data, l, source, target, date, forbidden + {source}).Failure?
  {
    hide TryKey, Fetch, Filed, Sorted;
    SortedMembers(data.Keys);
    var keys := Sorted(data.Keys);
    var i := FirstKeyTaken(data, keys, source, target, date, forbidden + {source});
    k := keys[i];
    forall l | l in data && l < k ensures TryKey(data, l, source, target, date, forbidden + {source}).Failure? {
      var j :| 0 <= j < |keys| && keys[j] == l;
      if i < j {
        SortedIncrease(data.Keys, i, j);
      }
    }
  }

  /** A chain of quotes valid at a date, over distinct currencies; only the ends may be forbidden. */
  ghost predicate Route(data: Rates, date: Date, cs: seq<Currency>, source: Currency, target: Currency,
                        forbidden: set<Currency>) {
    && |cs| >= 2 && cs[0] == source && cs[|cs| - 1] == target
    && Distinct(cs)
    && (forall i :: 0 <= i < |cs| ==> cs[i] < 1000)
    && (forall i :: 0 <= i < |cs| - 1 ==> Fetch(data, cs[i], cs[i + 1], date).Some?)
    && (forall i :: 0 < i < |cs| - 1 ==> cs[i] !in forbidden)
  }

  ghost function Quotes(data: Rates, date: Date, cs: seq<Currency>): (rs: seq<ExchangeRate>)
    requires |cs| >= 1 && forall i :: 0 <= i < |cs| - 1 ==> Fetch(data, cs[i], cs[i + 1], date).Some?
    ensures |rs| == |cs| - 1
  {
    seq(|cs| - 1, (i: int) requires 0 <= i < |cs| - 1 => Fetch(data, cs[i], cs[i + 1], date).value)
  }

  lemma QuotesArePath(data: Rates, date: Date, cs: seq<Currency>, source: Currency, target: Currency,
                      forbidden: set<Currency>)
    requires Filed(data) && Route(data, date, cs, source, target, forbidden)
    ensures Path(cs, Quotes(data, date, cs))
  {
    forall i | 0 <= i < |cs| - 1
      ensures var r := Quotes(data, date, cs)[i]; WellFormed(r) && {r.source, r.target} == {cs[i], cs[i + 1]}
    {
      FetchedRate(data, cs[i], cs[i + 1], date);
    }
  }

  /** `r` is the rate of a route: it connects its ends at the product of the quotes on the way. */
  ghost predicate RateOfRoute(data: Rates, date: Date, r: ExchangeRate, cs: seq<Currency>,
                              source: Currency, target: Currency, forbidden: set<Currency>)
    requires Filed(data)
  {
    && Route(data, date, cs, source, target, forbidden)
    && Path(cs, Quotes(data, date, cs))
    && Leads(r, source, target, PathRate(cs, Quotes(data, date, cs)))
  }

  /** A quote in front of a route makes a longer route. */
  lemma RouteExtended(data: Rates, date: Date, head: ExchangeRate, cs: seq<Currency>,
                      source: Currency, other: Currency, target: Currency, forbidden: set<Currency>)
    requires Filed(data) && source < 1000 && source != target && other !in forbidden && source in forbidden
    requires Fetch(data, source, other, date) == Some(head)
    requires Route(data, date, cs, other, target, forbidden)
    ensures Route(data, date, [source] + cs, source, target, forbidden - {source})
  {
    var ds := [source] + cs;
    hide Fetch;
    forall i | 0 <= i < |ds| - 1 ensures Fetch(data, ds[i], ds[i + 1], date).Some? {
      if i > 0 {
        assert ds[i] == cs[i - 1] && ds[i + 1] == cs[i];
      }
    }
  }

  lemma ExtendedRate(data: Rates, date: Date, head: ExchangeRate, cs: seq<Currency>,
                     source: Currency, other: Currency, target: Currency, forbidden: set<Currency>)
    requires Filed(data) && Route(data, date, cs, other, target, forbidden)
    requires Route(data, date, [source] + cs, source, target, forbidden - {source})
    requires Fetch(data, source, other, date) == Some(head) && head.rate != 0.0
    requires Path(cs, Quotes(data, date, cs))
    ensures Path([source] + cs, Quotes(data, date, [source] + cs))
    ensures PathRate([source] + cs, Quotes(data, date, [source] + cs))
         == Times(Oriented(head, source), PathRate(cs, Quotes(data, date, cs)))
  {
    var ds := [source] + cs;
    QuotesArePath(data, date, ds, source, target, forbidden - {source});
    var rs, qs := Quotes(data, date, ds), Quotes(data, date, cs);
    QuotesOfExtension(data, date, source, cs);
    hide Fetch, Filed, Distinct, PathRate, Oriented, Times, Quotes, Route, Path;
    PathRateSplit(ds, rs, 1);
    PathRateOfOne(ds[..2], rs[..1]);
  }

  lemma QuotesOfExtension(data: Rates, date: Date, source: Currency, cs: seq<Currency>)
    requires |cs| >= 1
    requires forall i :: 0 <= i < |cs| ==> Fetch(data, ([source] + cs)[i], ([source] + cs)[i + 1], date).Some?
    requires forall i :: 0 <= i < |cs| - 1 ==> Fetch(data, cs[i], cs[i + 1], date).Some?
    ensures ([source] + cs)[1..] == cs && ([source] + cs)[..2] == [source, cs[0]]
    ensures var rs := Quotes(data, date, [source] + cs);
      rs[1..] == Quotes(data, date, cs) && Fetch(data, source, cs[0], date) == Some(rs[0])
  {
    hide Fetch;
    var ds := [source] + cs;
    assert Fetch(data, ds[0], ds[1], date).Some?;
    assert Quotes(data, date, ds)[0] == Fetch(data, ds[0], ds[1], date).value;
  }

  lemma RateExtended(data: Rates, date: Date, head: ExchangeRate, tail: ExchangeRate, cs: seq<Currency>,
                     source: Currency, other: Currency, target: Currency, forbidden: set<Currency>)
    requires Filed(data) && source < 1000 && source != target && other != target
    requires other !in forbidden && source in forbidden
    requires Fetch(data, source, other, date) == Some(head)
    requires RateOfRoute(data, date, tail, cs, other, target, forbidden)
    ensures head.rate != 0.0 && tail.rate != 0.0 && Chain(head, tail).Success?
    ensures RateOfRoute(data, date, Chain(head, tail).value, [source] + cs, source, target, forbidden - {source})
  {
    assert other < 1000 by { assert cs[0] == other; }
    FetchedRate(data, source, other, date);
    hide Fetch, Filed, PathRate, Times, Path, Quotes;
    RouteExtended(data, date, head, cs, source, other, target, forbidden);
    ExtendedRate(data, date, head, cs, source, other, target, forbidden);
    ChainLeads(head, tail, source, other, target, Oriented(head, source), PathRate(cs, Quotes(data, date, cs)));
  }

  lemma QuoteIsRoute(data: Rates, source: Currency, target: Currency, date: Date, forbidden: set<Currency>)
    requires Filed(data) && source < 1000 && target < 1000 && source != target && source !in forbidden
    requires Fetch(data, source, target, date).Some?
    ensures RateOfRoute(data, date, Fetch(data, source, target, date).value, [source, target],
                        source, target, forbidden)
  {
    var cs := [source, target];
    FetchedRate(data, source, target, date);
    hide Fetch, Filed, PathRate, Oriented, Times;
    QuotesArePath(data, date, cs, source, target, forbidden);
    PathRateOfOne(cs, Quotes(data, date, cs));
  }

  /** A route that first goes to the other currency of a key. */
  ghost predicate RouteThrough(data: Rates, k: Key, date: Date, cs: seq<Currency>, source: Currency, target: Currency,
                               forbidden: set<Currency>) {
    Route(data, date, cs, source, target, forbidden - {source}) && |cs| > 2 && Hash(source, cs[1]) == k
  }

  /** What a successful round of the loop has found. */
  lemma RoundFound(data: Rates, k: Key, source: Currency, target: Currency, date: Date, forbidden: set<Currency>)
    returns (other: Currency, head: ExchangeRate)
    requires Filed(data) && source < 1000 && target < 1000 && k in data
    requires TryKey(data, k, source, target, date, forbidden).Success?
    ensures other < 1000 && other !in forbidden && Fetch(data, source, other, date) == Some(head)
    ensures k == Hash(source, other)
    ensures SmartLookup(data, other, target, date, forbidden).Success?
    ensures var tail := SmartLookup(data, other, target, date, forbidden).value;
      head.rate != 0.0 && tail.rate != 0.0 && TryKey(data, k, source, target, date, forbidden) == Chain(head, tail)
  {
    hide Fetch, Filed, Chain, Hash, Hashes, Other, SmartLookup;
    other := Other(data, k, source).value;
    OtherEnd(data, k, source);
    head := Fetch(data, source, other, date).value;
  }

  /** Whatever the search returns is the rate of a route. */
  lemma {:induction false} SmartLookupIsSound(data: Rates, source: Currency, target: Currency, date: Date,
                                              forbidden: set<Currency>) returns (cs: seq<Currency>)
    requires Filed(data) && source < 1000 && target < 1000 && source != target && source !in forbidden
    requires SmartLookup(data, source, target, date, forbidden).Success?
    ensures RateOfRoute(data, date, SmartLookup(data, source, target, date, forbidden).value, cs,
                        source, target, forbidden)
    decreases Codes() - forbidden, 1, 0
  {
    hide Fetch, Filed, TryKeys, RateOfRoute;
    if Fetch(data, source, target, date).Some? {
      cs := [source, target];
      QuoteIsRoute(data, source, target, date, forbidden);
    } else {
      assert source in Codes() - forbidden;
      SortedMembers(data.Keys);
      cs := TryKeysIsSound(data, Sorted(data.Keys), source, target, date, forbidden + {source});
      assert forbidden + {source} - {source} == forbidden;
    }
  }

  lemma {:induction false} TryKeysIsSound(data: Rates, keys: seq<Key>, source: Currency, target: Currency, date: Date,
                                          forbidden: set<Currency>) returns (cs: seq<Currency>)
    requires Filed(data) && source < 1000 && target < 1000 && source != target && source in forbidden
    requires forall k :: k in keys ==> k in data
    requires Fetch(data, source, target, date).None?
    requires TryKeys(data, keys, source, target, date, forbidden).Success?
    ensures RateOfRoute(data, date, TryKeys(data, keys, source, target, date, forbidden).value, cs, source, target,
                        forbidden - {source})
    decreases Codes() - forbidden, 2, |keys|
  {
    hide Fetch, Filed, TryKey, RateOfRoute, RouteThrough;
    if TryKey(data, keys[0], source, target, date, forbidden).Success? {
      cs := RoundIsSound(data, keys[0], source, target, date, forbidden);
    } else {
      cs := TryKeysIsSound(data, keys[1..], source, target, date, forbidden);
    }
  }

  /** A round that succeeds has found a route through the currencies of its key. */
  lemma {:induction false} RoundIsSound(data: Rates, k: Key, source: Currency, target: Currency, date: Date,
                                        forbidden: set<Currency>) returns (cs: seq<Currency>)
    requires Filed(data) && source < 1000 && target < 1000 && source != target && source in forbidden && k in data
    requires Fetch(data, source, target, date).None?
    requires TryKey(data, k, source, target, date, forbidden).Success?
    ensures RouteThrough(data, k, date, cs, source, target, forbidden)
    ensures RateOfRoute(data, date, TryKey(data, k, source, target, date, forbidden).value, cs, source, target,
                        forbidden - {source})
    decreases Codes() - forbidden, 2, 0
  {
    hide Fetch, Filed, TryKey, Chain, SmartLookup, Hash, Path, Leads;
    var other, head := RoundFound(data, k, source, target, date, forbidden);
    var tailRoute := SmartLookupIsSound(data, other, target, date, forbidden);
    var tail := SmartLookup(data, other, target, date, forbidden).value;
    RateExtended(data, date, head, tail, tailRoute, source, other, target, forbidden);
    cs := [source] + tailRoute;
  }

  /** The search finds a rate whenever there is a route. */
  lemma {:induction false} SmartLookupIsComplete(data: Rates, source: Currency, target: Currency, date: Date,
                                                 forbidden: set<Currency>, cs: seq<Currency>)
    requires Filed(data) && source < 1000 && target < 1000 && source != target && source !in forbidden
    requires Route(data, date, cs, source, target, forbidden)
    ensures SmartLookup(data, source, target, date, forbidden).Success?
    decreases Codes() - forbidden, 1, 0
  {
    if Fetch(data, source, target, date).None? {
      assert source in Codes() - forbidden;
      SortedMembers(data.Keys);
      assert |cs| > 2 by {
        if |cs| == 2 {
          assert Fetch(data, cs[0], cs[1], date).Some?;
        }
      }
      FetchedRate(data, cs[0], cs[1], date);
      TryKeysIsComplete(data, Sorted(data.Keys), source, target, date, forbidden + {source}, cs);
    }
  }

  lemma {:induction false} TryKeysIsComplete(data: Rates, keys: seq<Key>, source: Currency, target: Currency,
                                             date: Date,
                                             forbidden: set<Currency>, cs: seq<Currency>)
    requires Filed(data) && source < 1000 && target < 1000 && source != target && source in forbidden
    requires forall k :: k in keys ==> k in data
    requires Route(data, date, cs, source, target, forbidden - {source}) && |cs| > 2
    requires Fetch(data, source, target, date).None?
    requires Hash(source, cs[1]) in keys
    ensures TryKeys(data, keys, source, target, date, forbidden).Success?
    decreases Codes() - forbidden, 2, |keys|
  {
    var k := keys[0];
    if k == Hash(source, cs[1]) {
      TryKeyIsComplete(data, source, target, date, forbidden, cs);
    } else {
      assert Hash(source, cs[1]) in keys[1..];
      TryKeysIsComplete(data, keys[1..], source, target, date, forbidden, cs);
    }
  }

  lemma {:induction false} TryKeyIsComplete(data: Rates, source: Currency, target: Currency, date: Date,
                                            forbidden: set<Currency>, cs: seq<Currency>)
    requires Filed(data) && source < 1000 && target < 1000 && source != target && source in forbidden
    requires Route(data, date, cs, source, target, forbidden - {source}) && |cs| > 2
    requires Fetch(data, source, target, date).None?
    ensures Hash(source, cs[1]) in data
    ensures TryKey(data, Hash(source, cs[1]), source, target, date, forbidden).Success?
    decreases Codes() - forbidden, 2, 0
  {
    hide Fetch, Filed, Chain, Hash, Hashes, Route, RateOfRoute, Distinct, Other, Leads;
    var other, k := cs[1], Hash(source, cs[1]);
    TailRoute(data, date, cs, source, target, forbidden);
    FetchedRate(data, source, other, date);
    OtherOfRoute(data, k, source, other);
    SmartLookupIsComplete(data, other, target, date, forbidden, cs[1..]);
    var route := SmartLookupIsSound(data, other, target, date, forbidden);
    RateExtended(data, date, Fetch(data, source, other, date).value,
                 SmartLookup(data, other, target, date, forbidden).value, route, source, other, target, forbidden);
  }

  /** One round of the loop succeeds exactly when a route goes through the currencies of its key. */
  lemma RoundDecides(data: Rates, k: Key, source: Currency, target: Currency, date: Date, forbidden: set<Currency>)
    requires Filed(data) && source < 1000 && target < 1000 && source != target && source in forbidden && k in data
    requires Fetch(data, source, target, date).None?
    ensures TryKey(data, k, source, target, date, forbidden).Success?
       <==> exists cs :: RouteThrough(data, k, date, cs, source, target, forbidden)
  {
    hide Fetch, Filed, TryKey, Route, Hash;
    if TryKey(data, k, source, target, date, forbidden).Success? {
      var cs := RoundIsSound(data, k, source, target, date, forbidden);
    }
    if exists cs :: RouteThrough(data, k, date, cs, source, target, forbidden) {
      var cs :| RouteThrough(data, k, date, cs, source, target, forbidden);
      TryKeyIsComplete(data, source, target, date, forbidden, cs);
    }
  }

  lemma TailRoute(data: Rates, date: Date, cs: seq<Currency>, source: Currency, target: Currency,
                  forbidden: set<Currency>)
    requires Route(data, date, cs, source, target, forbidden - {source}) && |cs| > 2
    ensures Fetch(data, source, cs[1], date).Some?
    ensures cs[1] < 1000 && cs[1] != source && cs[1] != target && cs[1] !in forbidden
    ensures Route(data, date, cs[1..], cs[1], target, forbidden)
  {
    hide Fetch;
    var tail := cs[1..];
    assert Fetch(data, cs[0], cs[1], date).Some?;
    forall i | 0 <= i < |tail| - 1 ensures Fetch(data, tail[i], tail[i + 1], date).Some? {
      assert tail[i] == cs[i + 1] && tail[i + 1] == cs[i + 2];
    }
  }

  lemma OtherOfRoute(data: Rates, k: Key, source: Currency, other: Currency)
    requires Filed(data) && source < 1000 && other < 1000 && source != other
    requires k == Hash(source, other) && k in data && data[k] != []
    ensures Other(data, k, source) == Some(other)
  {
    var e := data[k][0];
    assert e in data[k];
    HashIsUnique(source, other, e.rate.source, e.rate.target);
    HashIsUnique(source, other, source, other);
    EndsAre(e.rate, source, other);
  }

  // ----- what the search decides -----

  /** A chain of quotes valid at a date, possibly visiting a currency more than once. */
  ghost predicate Walk(data: Rates, date: Date, cs: seq<Currency>, source: Currency, target: Currency) {
    && |cs| >= 1 && cs[0] == source && cs[|cs| - 1] == target
    && (forall i :: 0 <= i < |cs| ==> cs[i] < 1000)
    && (forall i :: 0 <= i < |cs| - 1 ==> Fetch(data, cs[i], cs[i + 1], date).Some?)
  }

  lemma {:induction false} WalkToRoute(data: Rates, date: Date, cs: seq<Currency>, source: Currency, target: Currency)
    returns (ds: seq<Currency>)
    requires Walk(data, date, cs, source, target) && source != target
    ensures Route(data, date, ds, source, target, {})
    decreases |cs|
  {
    hide Fetch;
    if Distinct(cs) {
      ds := cs;
    } else {
      var i, j :| 0 <= i < j < |cs| && cs[i] == cs[j];
      var shorter := cs[..i] + cs[j..];
      forall k | 0 <= k < |shorter| - 1 ensures Fetch(data, shorter[k], shorter[k + 1], date).Some? {
        if k < i {
          assert shorter[k] == cs[k] && shorter[k + 1] == cs[k + 1];
        } else {
          assert shorter[k] == cs[k - i + j] && shorter[k + 1] == cs[k - i + j + 1];
        }
      }
      ds := WalkToRoute(data, date, shorter, source, target);
    }
  }

  /** The search succeeds exactly when some chain of quotes valid at the date links the two currencies. */
  lemma SmartLookupDecides(data: Rates, source: Currency, target: Currency, date: Date)
    requires Filed(data) && source < 1000 && target < 1000 && source != target
    ensures SmartLookup(data, source, target, date, {}).Success? <==> exists cs :: Walk(data, date, cs, source, target)
  {
    if SmartLookup(data, source, target, date, {}).Success? {
      var cs := SmartLookupIsSound(data, source, target, date, {});
      assert Walk(data, date, cs, source, target);
    }
    if exists cs :: Walk(data, date, cs, source, target) {
      var cs :| Walk(data, date, cs, source, target);
      var ds := WalkToRoute(data, date, cs, source, target);
      SmartLookupIsComplete(data, source, target, date, {}, ds);
    }
  }

  // ----- lookup with triangulation -----

  function DirectLookup(data: Rates, source: Currency, target: Currency, date: Date): Result<ExchangeRate, RateError> {
    match Fetch(data, source, target, date)
    case Some(rate) => Success(rate)
    case None => Failure(NoConversion)
  }

  ghost predicate Ranked(links: map<Currency, Currency>, rank: Currency -> nat) {
    forall c :: c in links ==> links[c] < 1000 && rank(links[c]) < rank(c)
  }

  /** Currencies that must be exchanged through another one, which may in turn be exchanged through a third one; the
      links never lead back. */
  ghost predicate Triangulation(links: map<Currency, Currency>) {
    exists rank: Currency -> nat :: Ranked(links, rank)
  }

  ghost function Heights(links: map<Currency, Currency>): (rank: Currency -> nat)
    requires Triangulation(links)
    ensures Ranked(links, rank)
  {
    var rank: Currency -> nat :| Ranked(links, rank);
    rank
  }

  /** How many links a currency is away from one that is exchanged freely, at most. */
  ghost function Height(links: map<Currency, Currency>, c: Currency): (h: nat)
    requires Triangulation(links)
    ensures c in links ==> Heights(links)(links[c]) < h && links[c] < 1000
  {
    Heights(links)(c)
  }

  function LookupRate(data: Rates, links: map<Currency, Currency>, source: Currency, target: Currency, date: Date,
                      directOnly: bool): Result<ExchangeRate, RateError>
    requires Filed(data) && Triangulation(links) && source < 1000 && target < 1000
    decreases Height(links, source) + Height(links, target)
  {
    if source == target then Success(Direct(source, target, 1.0))
    else if directOnly then DirectLookup(data, source, target, date)
    else if source in links then
      var link := links[source];
      var first :- DirectLookup(data, source, link, date);
      if link == target then Success(first)
      else
        var second :- LookupRate(data, links, link, target, date, false);
        if first.rate != 0.0 && second.rate != 0.0 then Chain(first, second) else Failure(NotChainable)
    else if target in links then
      var link := links[target];
      if source == link then DirectLookup(data, link, target, date)
      else
        var first :- LookupRate(data, links, source, link, date, false);
        var second :- DirectLookup(data, link, target, date);
        if first.rate != 0.0 && second.rate != 0.0 then Chain(first, second) else Failure(NotChainable)
    else SmartLookup(data, source, target, date, {})
  }

  /** A lookup of a direct quote succeeds exactly when an entry of the pair is valid at the date, whatever the links,
      and returns the quote that is fetched. */
  lemma DirectLookupDecides(data: Rates, links: map<Currency, Currency>, source: Currency, target: Currency, date: Date)
    requires Filed(data) && Triangulation(links) && source < 1000 && target < 1000 && source != target
    ensures var r := LookupRate(data, links, source, target, date, true);
      && (r.Success? <==> exists k, e :: QuotesPair(data, k, e, source, target, date))
      && (r.Success? ==> Fetch(data, source, target, date) == Some(r.value))
  {
    FetchDecides(data, source, target, date);
    hide Fetch, Filed, QuotesPair;
  }

  /** A rate between two different currencies that can be applied to either of them. */
  predicate Between(r: ExchangeRate, source: Currency, target: Currency) {
    WellFormed(r) && {r.source, r.target} == {source, target}
  }

  lemma ChainBetween(r1: ExchangeRate, r2: ExchangeRate, a: Currency, m: Currency, b: Currency)
    requires a != m && m != b && a != b && Between(r1, a, m) && Between(r2, m, b)
    ensures Chain(r1, r2).Success? && Between(Chain(r1, r2).value, a, b)
  {
    ChainLeads(r1, r2, a, m, b, Oriented(r1, a), Oriented(r2, m));
  }

  /** A rate that was looked up connects the requested currencies. */
  lemma {:induction false} LookupConnects(data: Rates, links: map<Currency, Currency>, source: Currency,
                                          target: Currency,
                                          date: Date, directOnly: bool)
    requires Filed(data) && Triangulation(links) && source < 1000 && target < 1000
    requires LookupRate(data, links, source, target, date, directOnly).Success?
    ensures var r := LookupRate(data, links, source, target, date, directOnly).value;
      if source == target then r == Direct(source, target, 1.0) else Between(r, source, target)
    decreases Height(links, source) + Height(links, target)
  {
    if source == target || directOnly {
      if source != target {
        FetchedRate(data, source, target, date);
      }
    } else if source in links {
      var link := links[source];
      FetchedRate(data, source, link, date);
      if link != target {
        LookupConnects(data, links, link, target, date, false);
        var first := DirectLookup(data, source, link, date).value;
        var second := LookupRate(data, links, link, target, date, false).value;
        ChainBetween(first, second, source, link, target);
      }
    } else if target in links {
      var link := links[target];
      FetchedRate(data, link, target, date);
      if source != link {
        LookupConnects(data, links, source, link, date, false);
        var first := LookupRate(data, links, source, link, date, false).value;
        var second := DirectLookup(data, link, target, date).value;
        ChainBetween(first, second, source, link, target);
      }
    } else {
      var cs := SmartLookupIsSound(data, source, target, date, {});
    }
  }

  // ----- the repository -----

  class ExchangeRateManager {
    var data: Rates

    constructor ()
      ensures data == map[] && Filed(data)
    {
      data := map[];
    }

    /** Files a rate. Between its currencies and within its dates it takes precedence over earlier ones;
        every other lookup is unchanged. */
    method Add(rate: ExchangeRate, startDate: Date, endDate: Date)
      requires rate.source < 1000 && rate.target < 1000
      modifies this
      ensures old(Filed(data)) && WellFormed(rate) ==> Filed(data)
      ensures forall c: Currency, d: Currency, date :: c < 1000 && d < 1000 ==>
        Fetch(data, c, d, date) ==
          if {c, d} == {rate.source, rate.target} && startDate <= date <= endDate then Some(rate)
          else Fetch(old(data), c, d, date)
    {
      var k := Hash(rate.source, rate.target);
      var entry := Entry(rate, startDate, endDate);
      var listed := if k in data then data[k] else [];
      data := data[k := [entry] + listed];
      assert ([entry] + listed)[1..] == listed;
      forall c: Currency, d: Currency, date | c < 1000 && d < 1000
        ensures Fetch(data, c, d, date) ==
          if {c, d} == {rate.source, rate.target} && startDate <= date <= endDate then Some(rate)
          else Fetch(old(data), c, d, date)
      {
        HashIsUnique(c, d, rate.source, rate.target);
        assert FirstValid([entry] + listed, date) ==
          if startDate <= date <= endDate then Some(rate) else FirstValid(listed, date);
        hide Hash;
      }
    }

    /** The search, as the loop over the keys that it is. */
    method Search(source: Currency, target: Currency, date: Date, forbidden: set<Currency>)
      returns (r: Result<ExchangeRate, RateError>)
      requires Filed(data) && source < 1000 && target < 1000 && source !in forbidden
      ensures r == SmartLookup(data, source, target, date, forbidden)
      decreases Codes() - forbidden, 1
    {
      hide Fetch, Filed, TryKey;
      var direct := Fetch(data, source, target, date);
      if direct.Some? {
        return Success(direct.value);
      }
      assert source in Codes() - forbidden;
      SortedMembers(data.Keys);
      var visited := forbidden + {source};
      var keys := Sorted(data.Keys);
      assert keys[0..] == keys;
      for i := 0 to |keys|
        invariant forall k :: k in keys ==> k in data
        invariant SmartLookup(data, source, target, date, forbidden)
               == TryKeys(data, keys[i..], source, target, date, visited)
      {
        assert keys[i..][0] == keys[i] && keys[i..][1..] == keys[i + 1..];
        r := SearchThrough(keys[i], source, target, date, visited);
        if r.Success? {
          return;
        }
      }
      return Failure(NoConversion);
    }

    /** One round of the loop: the rates filed under a key are the head of a chain, if the search can get to the
        target from their other currency. */
    method SearchThrough(k: Key, source: Currency, target: Currency, date: Date, visited: set<Currency>)
      returns (r: Result<ExchangeRate, RateError>)
      requires Filed(data) && source < 1000 && target < 1000 && k in data
      ensures r == TryKey(data, k, source, target, date, visited)
      ensures source != target && source in visited && Fetch(data, source, target, date).None? ==>
        (r.Success? <==> exists cs :: RouteThrough(data, k, date, cs, source, target, visited))
      decreases Codes() - visited, 2
    {
      if source != target && source in visited && Fetch(data, source, target, date).None? {
        RoundDecides(data, k, source, target, date, visited);
      }
      hide Fetch, Filed, Other, Hash, Hashes, Chain, SmartLookup, RouteThrough;
      var other := Other(data, k, source);
      if other.None? || other.value in visited {
        return Failure(NoConversion);
      }
      OtherEnd(data, k, source);
      var head := Fetch(data, source, other.value, date);
      if head.None? {
        return Failure(NoConversion);
      }
      var tail := Search(other.value, target, date, visited);
      if tail.Failure? {
        return Failure(tail.error);
      }
      if head.value.rate == 0.0 || tail.value.rate == 0.0 {
        return Failure(NotChainable);
      }
      r := Chain(head.value, tail.value);
    }
  }
}
