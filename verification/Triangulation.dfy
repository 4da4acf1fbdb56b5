/** What a lookup with triangulation finds: which currencies it goes through, at which rate, and when it succeeds
    (ql/currencies/exchangeratemanager.cpp). */
module Triangulations {
  import opened ExchangeRates
  import opened RateManagers
  import opened RealArithmetic

  /** A walk of quotes that leaves a triangulated source through its link, and that one through its own link, and
      so on, and enters a triangulated target likewise. */
  ghost predicate Via(data: Rates, links: map<Currency, Currency>, date: Date, cs: seq<Currency>,
                      source: Currency, target: Currency)
    decreases |cs|
  {
    && Walk(data, date, cs, source, target) && |cs| >= 2
    && if source in links then
         cs[1] == links[source] && (links[source] == target || Via(data, links, date, cs[1..], links[source], target))
       else if target in links then
         cs[|cs| - 2] == links[target]
         && (links[target] == source || Via(data, links, date, cs[..|cs| - 1], source, links[target]))
       else true
  }

  /** `r` leads from one end of a walk to the other at the product of the quotes on the way. */
  ghost predicate RateOfWalk(data: Rates, date: Date, r: ExchangeRate, cs: seq<Currency>,
                             source: Currency, target: Currency) {
    && Walk(data, date, cs, source, target)
    && Path(cs, Quotes(data, date, cs))
    && Leads(r, source, target, PathRate(cs, Quotes(data, date, cs)))
  }

  lemma QuoteIsWalk(data: Rates, source: Currency, target: Currency, date: Date)
    requires Filed(data) && source < 1000 && target < 1000 && Fetch(data, source, target, date).Some?
    ensures source != target
    ensures RateOfWalk(data, date, Fetch(data, source, target, date).value, [source, target], source, target)
  {
    FetchedRate(data, source, target, date);
    hide Fetch, Filed, PathRate, Leads;
    QuoteIsRoute(data, source, target, date, {});
  }

  lemma JoinedIsWalk(data: Rates, date: Date, cs: seq<Currency>, ds: seq<Currency>,
                     source: Currency, middle: Currency, target: Currency)
    requires Walk(data, date, cs, source, middle) && Walk(data, date, ds, middle, target)
    ensures var all := cs + ds[1..];
      Walk(data, date, all, source, target) && all[..|cs|] == cs && all[|cs| - 1..] == ds
  {
    hide Fetch;
    var all := cs + ds[1..];
    assert all[|cs| - 1..] == ds;
    forall i | 0 <= i < |all| - 1 ensures Fetch(data, all[i], all[i + 1], date).Some? {
      if i >= |cs| - 1 {
        assert all[i] == ds[i - |cs| + 1] && all[i + 1] == ds[i - |cs| + 2];
      }
    }
  }

  lemma QuotesOfParts(data: Rates, date: Date, all: seq<Currency>, k: nat)
    requires k < |all| && forall i :: 0 <= i < |all| - 1 ==> Fetch(data, all[i], all[i + 1], date).Some?
    ensures Quotes(data, date, all)[..k] == Quotes(data, date, all[..k + 1])
    ensures Quotes(data, date, all)[k..] == Quotes(data, date, all[k..])
  {
    hide Fetch;
  }

  lemma QuotesLead(data: Rates, date: Date, cs: seq<Currency>, source: Currency, target: Currency)
    requires Filed(data) && Walk(data, date, cs, source, target)
    ensures Path(cs, Quotes(data, date, cs))
  {
    hide Fetch, Filed;
    forall i | 0 <= i < |cs| - 1
      ensures var r := Quotes(data, date, cs)[i]; WellFormed(r) && {r.source, r.target} == {cs[i], cs[i + 1]}
    {
      FetchedRate(data, cs[i], cs[i + 1], date);
    }
  }

  /** Chaining the rates of two walks gives the rate of the joined walk. */
  lemma WalksChain(data: Rates, date: Date, r1: ExchangeRate, cs: seq<Currency>, r2: ExchangeRate, ds: seq<Currency>,
                   source: Currency, middle: Currency, target: Currency)
    requires Filed(data) && source != middle && middle != target && source != target
    requires RateOfWalk(data, date, r1, cs, source, middle) && RateOfWalk(data, date, r2, ds, middle, target)
    ensures r1.rate != 0.0 && r2.rate != 0.0 && Chain(r1, r2).Success?
    ensures RateOfWalk(data, date, Chain(r1, r2).value, cs + ds[1..], source, target)
  {
    hide Fetch, Filed, PathRate, Times, Path, Quotes, WellFormed, Chain, Oriented;
    var all := cs + ds[1..];
    JoinedIsWalk(data, date, cs, ds, source, middle, target);
    QuotesOfParts(data, date, all, |cs| - 1);
    QuotesLead(data, date, all, source, target);
    PathRateSplit(all, Quotes(data, date, all), |cs| - 1);
    NonZeroEnds(r1);
    NonZeroEnds(r2);
    ChainLeads(r1, r2, source, middle, target,
               PathRate(cs, Quotes(data, date, cs)), PathRate(ds, Quotes(data, date, ds)));
  }

  lemma NonZeroEnds(r: ExchangeRate)
    requires WellFormed(r)
    ensures r.rate != 0.0
  {
  }

  // ----- lookup -----

  /** A rate that was looked up is the rate of a walk through the links. */
  lemma {:induction false} LookupFollowsLinks(data: Rates, links: map<Currency, Currency>, source: Currency,
                                              target: Currency, date: Date) returns (cs: seq<Currency>)
    requires Filed(data) && Triangulation(links) && source < 1000 && target < 1000 && source != target
    requires LookupRate(data, links, source, target, date, false).Success?
    ensures Via(data, links, date, cs, source, target)
    ensures RateOfWalk(data, date, LookupRate(data, links, source, target, date, false).value, cs, source, target)
    decreases Height(links, source) + Height(links, target)
  {
    hide Fetch, Filed, PathRate, Path, Quotes, Leads, Chain, SmartLookup;
    if source in links {
      var link := links[source];
      cs := [source, link];
      QuoteIsWalk(data, source, link, date);
      if link != target {
        var ds := LookupFollowsLinks(data, links, link, target, date);
        WalksChain(data, date, Fetch(data, source, link, date).value, cs,
                   LookupRate(data, links, link, target, date, false).value, ds, source, link, target);
        cs := cs + ds[1..];
        assert cs[1..] == ds;
      }
    } else if target in links {
      var link := links[target];
      cs := [link, target];
      QuoteIsWalk(data, link, target, date);
      if source != link {
        var ds := LookupFollowsLinks(data, links, source, link, date);
        WalksChain(data, date, LookupRate(data, links, source, link, date, false).value, ds,
                   Fetch(data, link, target, date).value, cs, source, link, target);
        cs := ds + cs[1..];
        assert cs[..|cs| - 1] == ds;
      }
    } else {
      cs := SmartLookupIsSound(data, source, target, date, {});
    }
  }

  /** Whenever such a walk exists, the lookup succeeds. */
  lemma {:induction false} WalkThroughLinksFound(data: Rates, links: map<Currency, Currency>, source: Currency,
                                                 target: Currency, date: Date, cs: seq<Currency>)
    requires Filed(data) && Triangulation(links) && source < 1000 && target < 1000 && source != target
    requires Via(data, links, date, cs, source, target)
    ensures LookupRate(data, links, source, target, date, false).Success?
    decreases Height(links, source) + Height(links, target)
  {
    hide Fetch, Filed, Chain, SmartLookup, WellFormed;
    var n := |cs|;
    if source in links {
      var link := links[source];
      assert Fetch(data, cs[0], cs[1], date).Some?;
      if link != target {
        assert Via(data, links, date, cs[1..], link, target);
        WalkThroughLinksFound(data, links, link, target, date, cs[1..]);
        ConnectedBefore(data, links, source, link, target, date);
      }
    } else if target in links {
      var link := links[target];
      assert Fetch(data, cs[n - 2], cs[n - 1], date).Some?;
      if source != link {
        assert Via(data, links, date, cs[..n - 1], source, link);
        WalkThroughLinksFound(data, links, source, link, date, cs[..n - 1]);
        ConnectedAfter(data, links, source, link, target, date);
      }
    } else {
      SmartLookupDecides(data, source, target, date);
    }
  }

  lemma ConnectedBefore(data: Rates, links: map<Currency, Currency>, source: Currency, link: Currency,
                        target: Currency, date: Date)
    requires Filed(data) && Triangulation(links) && source < 1000 && target < 1000 && link < 1000
    requires source != target && link != target
    requires Fetch(data, source, link, date).Some? && LookupRate(data, links, link, target, date, false).Success?
    ensures var r1 := Fetch(data, source, link, date).value;
      var r2 := LookupRate(data, links, link, target, date, false).value;
      r1.rate != 0.0 && r2.rate != 0.0 && Chain(r1, r2).Success?
  {
    hide Fetch, Filed, Chain, LookupRate;
    FetchedRate(data, source, link, date);
    LookupConnects(data, links, link, target, date, false);
    ChainBetween(Fetch(data, source, link, date).value, LookupRate(data, links, link, target, date, false).value,
                 source, link, target);
  }

  lemma ConnectedAfter(data: Rates, links: map<Currency, Currency>, source: Currency, link: Currency,
                       target: Currency, date: Date)
    requires Filed(data) && Triangulation(links) && source < 1000 && target < 1000 && link < 1000
    requires source != target && link != source
    requires Fetch(data, link, target, date).Some? && LookupRate(data, links, source, link, date, false).Success?
    ensures var r1 := LookupRate(data, links, source, link, date, false).value;
      var r2 := Fetch(data, link, target, date).value;
      r1.rate != 0.0 && r2.rate != 0.0 && Chain(r1, r2).Success?
  {
    hide Fetch, Filed, Chain, LookupRate;
    FetchedRate(data, link, target, date);
    LookupConnects(data, links, source, link, date, false);
    ChainBetween(LookupRate(data, links, source, link, date, false).value, Fetch(data, link, target, date).value,
                 source, link, target);
  }

  /** A lookup between different currencies succeeds exactly when some walk of quotes valid at the date goes through
      the links of its ends. */
  lemma LookupDecides(data: Rates, links: map<Currency, Currency>, source: Currency, target: Currency, date: Date)
    requires Filed(data) && Triangulation(links) && source < 1000 && target < 1000 && source != target
    ensures LookupRate(data, links, source, target, date, false).Success?
       <==> exists cs :: Via(data, links, date, cs, source, target)
  {
    hide Via, LookupRate, Filed;
    if LookupRate(data, links, source, target, date, false).Success? {
      var cs := LookupFollowsLinks(data, links, source, target, date);
    }
    if exists cs :: Via(data, links, date, cs, source, target) {
      var cs :| Via(data, links, date, cs, source, target);
      WalkThroughLinksFound(data, links, source, target, date, cs);
    }
  }
}
