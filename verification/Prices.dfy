/** Interval prices as series and as columns (ql/prices.cpp, ql/timeseries.hpp). */
module Prices {
  import opened Orderings
  import opened Results

  type Date = int

  datatype Component = Open | Close | High | Low

  datatype IntervalPrice = IntervalPrice(open: real, close: real, high: real, low: real) {
    function Value(t: Component): real {
      match t
      case Open => open
      case Close => close
      case High => high
      case Low => low
    }
  }

  datatype PriceError = SizeMismatch

  // ----- series -----

  /** A series built from two sequences: the last value given for a date wins. */
  function FromSequences<T>(dates: seq<Date>, values: seq<T>): map<Date, T>
    requires |dates| == |values|
  {
    if dates == [] then map[]
    else
      var n := |dates| - 1;
      FromSequences(dates[..n], values[..n])[dates[n] := values[n]]
  }

  lemma {:induction false} FromSequencesKeys<T>(dates: seq<Date>, values: seq<T>)
    requires |dates| == |values|
    ensures FromSequences(dates, values).Keys == set d | d in dates
  {
    if dates != [] {
      var n := |dates| - 1;
      FromSequencesKeys(dates[..n], values[..n]);
      assert dates == dates[..n] + [dates[n]];
    }
  }

  /** A date holds the value given at its last position. */
  lemma {:induction false} LastValueWins<T>(dates: seq<Date>, values: seq<T>, i: nat)
    requires |dates| == |values| && i < |dates|
    requires forall j :: i < j < |dates| ==> dates[j] != dates[i]
    ensures dates[i] in FromSequences(dates, values) && FromSequences(dates, values)[dates[i]] == values[i]
    decreases |dates|
  {
    if i < |dates| - 1 {
      LastValueWins(dates[..|dates| - 1], values[..|dates| - 1], i);
    }
  }

  lemma SortedDate(dates: set<Date>, d: Date) returns (i: nat)
    requires d in dates
    ensures i < |Sorted(dates)| && Sorted(dates)[i] == d
    ensures forall j :: i < j < |Sorted(dates)| ==> Sorted(dates)[j] != d
  {
    SortedMembers(dates);
    i :| 0 <= i < |Sorted(dates)| && Sorted(dates)[i] == d;
    hide Sorted;
    forall j | i < j < |Sorted(dates)| ensures Sorted(dates)[j] != d {
      SortedIncrease(dates, i, j);
    }
  }

  lemma SortedKeys(dates: set<Date>)
    ensures (set d | d in Sorted(dates)) == dates
  {
    SortedMembers(dates);
    hide Sorted;
    var s := set d | d in Sorted(dates);
    forall d ensures d in s <==> d in dates {
      assert d in Sorted(dates) <==> d in dates;
    }
  }

  /** Taking the sorted dates and the values apart and putting them together again gives the series back. */
  lemma SeriesFromItsParts<T>(m: map<Date, T>, values: seq<T>)
    requires var dates := Sorted(m.Keys);
      |values| == |dates| && forall i :: 0 <= i < |dates| ==> dates[i] in m && values[i] == m[dates[i]]
    ensures FromSequences(Sorted(m.Keys), values) == m
  {
    hide FromSequences, Sorted;
    var dates := Sorted(m.Keys);
    FromSequencesKeys(dates, values);
    SortedKeys(m.Keys);
    forall d | d in m ensures d in FromSequences(dates, values) && FromSequences(dates, values)[d] == m[d] {
      var i := SortedDate(m.Keys, d);
      LastValueWins(dates, values, i);
    }
  }

  function ComponentOf(m: map<Date, IntervalPrice>, t: Component): map<Date, real> {
    map d | d in m :: m[d].Value(t)
  }

  function Column(t: Component, open: seq<real>, close: seq<real>, high: seq<real>, low: seq<real>): seq<real> {
    match t
    case Open => open
    case Close => close
    case High => high
    case Low => low
  }

  function Rows(n: nat, open: seq<real>, close: seq<real>, high: seq<real>, low: seq<real>): (r: seq<IntervalPrice>)
    requires n <= |open| && n <= |close| && n <= |high| && n <= |low|
    ensures |r| == n
  {
    seq(n, (i: int) requires 0 <= i < n => IntervalPrice(open[i], close[i], high[i], low[i]))
  }

  /** A component of a series of prices is the series of the components, for any values and repeated dates. */
  lemma {:induction false} ComponentOfSeries(dates: seq<Date>, prices: seq<IntervalPrice>, column: seq<real>,
                                             t: Component)
    requires |dates| == |prices| == |column| && forall i :: 0 <= i < |dates| ==> column[i] == prices[i].Value(t)
    ensures ComponentOf(FromSequences(dates, prices), t) == FromSequences(dates, column)
  {
    if dates != [] {
      var n := |dates| - 1;
      ComponentOfSeries(dates[..n], prices[..n], column[..n], t);
    }
  }

  /** Extracting a component from an assembled series gives back the series of that column. */
  lemma ExtractAfterMake(dates: seq<Date>, open: seq<real>, close: seq<real>, high: seq<real>, low: seq<real>,
                         t: Component)
    requires |dates| == |open| == |close| == |high| == |low|
    ensures ComponentOf(FromSequences(dates, Rows(|dates|, open, close, high, low)), t)
         == FromSequences(dates, Column(t, open, close, high, low))
  {
    ComponentOfSeries(dates, Rows(|dates|, open, close, high, low), Column(t, open, close, high, low), t);
  }

  // ----- the operations -----

  method MakeSeries(dates: seq<Date>, open: seq<real>, close: seq<real>, high: seq<real>, low: seq<real>)
    returns (r: Result<map<Date, IntervalPrice>, PriceError>)
    ensures r.Failure? <==> !(|dates| == |open| == |close| == |high| == |low|)
    ensures r.Success? ==> r.value == FromSequences(dates, Rows(|dates|, open, close, high, low))
    ensures r.Success? ==> forall i :: 0 <= i < |dates| && dates[i] !in dates[i + 1..] ==>
      dates[i] in r.value && r.value[dates[i]] == IntervalPrice(open[i], close[i], high[i], low[i])
  {
    if !(|dates| == |open| == |close| == |high| == |low|) {
      return Failure(SizeMismatch);
    }
    var series := map[];
    ghost var rows := Rows(|dates|, open, close, high, low);
    for i := 0 to |dates|
      invariant series == FromSequences(dates[..i], rows[..i])
    {
      assert dates[..i + 1][..i] == dates[..i] && rows[..i + 1][..i] == rows[..i];
      series := series[dates[i] := IntervalPrice(open[i], close[i], high[i], low[i])];
    }
    assert dates[..|dates|] == dates && rows[..|dates|] == rows;
    forall i | 0 <= i < |dates| && dates[i] !in dates[i + 1..]
      ensures dates[i] in series && series[dates[i]] == IntervalPrice(open[i], close[i], high[i], low[i])
    {
      assert forall j :: i < j < |dates| ==> dates[j] == dates[i + 1..][j - i - 1];
      LastValueWins(dates, rows, i);
    }
    return Success(series);
  }

  method ExtractValues(ts: map<Date, IntervalPrice>, t: Component) returns (values: seq<real>)
    ensures var dates := Sorted(ts.Keys);
      |values| == |dates| && forall i :: 0 <= i < |dates| ==> dates[i] in ts && values[i] == ts[dates[i]].Value(t)
  {
    var dates := Sorted(ts.Keys);
    SortedMembers(ts.Keys);
    assert forall d :: d in dates <==> d in ts.Keys;
    values := [];
    for i := 0 to |dates|
      invariant |values| == i && forall k :: 0 <= k < i ==> dates[k] in ts && values[k] == ts[dates[k]].Value(t)
    {
      assert dates[i] in dates;
      values := values + [ts[dates[i]].Value(t)];
    }
  }

  method ExtractComponent(ts: map<Date, IntervalPrice>, t: Component) returns (r: map<Date, real>)
    ensures r == ComponentOf(ts, t)
    ensures r.Keys == ts.Keys && forall d :: d in r ==>
      r[d] == match t case Open => ts[d].open case Close => ts[d].close case High => ts[d].high case Low => ts[d].low
  {
    hide FromSequences;
    var values := ExtractValues(ts, t);
    assert ComponentOf(ts, t).Keys == ts.Keys;
    SeriesFromItsParts(ComponentOf(ts, t), values);
    r := FromSequences(Sorted(ts.Keys), values);
  }
}
