/** Time grids (ql/timegrid.hpp, ql/timegrid.cpp): construction and node lookup. */
module TimeGrids {
  import opened Comparison
  import opened RealArithmetic
  import opened Results

  type Time = real

  datatype GridError = NegativeTimes

  /** The three ways in which `index` reports an inadequate grid. */
  datatype IndexError =
    | AllNodesLater(earliest: Time)
    | AllNodesEarlier(latest: Time)
    | BetweenNodes(before: Time, after: Time)

  predicate Ascending(s: seq<Time>) {
    forall i, j :: 0 <= i < j < |s| ==> s[i] <= s[j]
  }

  predicate Increasing(s: seq<Time>) {
    forall i, j :: 0 <= i < j < |s| ==> s[i] < s[j]
  }

  predicate PairwiseApart(s: seq<Time>) {
    forall i, j :: 0 <= i < j < |s| ==> !CloseEnough(s[i], s[j])
  }

  predicate NonNegative(s: seq<Time>) {
    forall t :: t in s ==> t >= 0.0
  }

  // ----- sorting and removal of duplicates: what std::sort and std::unique leave behind -----

  function Insert(t: Time, s: seq<Time>): seq<Time> {
    if s == [] || t <= s[0] then [t] + s else [s[0]] + Insert(t, s[1..])
  }

  function Sort(s: seq<Time>): seq<Time> {
    if s == [] then [] else Insert(s[0], Sort(s[1..]))
  }

  lemma {:induction false} InsertAdds(t: Time, s: seq<Time>)
    ensures multiset(Insert(t, s)) == multiset{t} + multiset(s)
  {
    if s != [] {
      assert s == [s[0]] + s[1..];
      if t > s[0] {
        InsertAdds(t, s[1..]);
      }
    }
  }

  lemma {:induction false} InsertKeepsOrder(t: Time, s: seq<Time>)
    requires Ascending(s)
    ensures Ascending(Insert(t, s))
  {
    if s != [] && t > s[0] {
      var rest := Insert(t, s[1..]);
      InsertKeepsOrder(t, s[1..]);
      InsertAdds(t, s[1..]);
      forall i | 0 <= i < |rest| ensures s[0] <= rest[i] {
        assert rest[i] in multiset(rest);
        assert rest[i] == t || rest[i] in s[1..];
      }
    }
  }

  lemma {:induction false} SortSorts(s: seq<Time>)
    ensures Ascending(Sort(s))
    ensures multiset(Sort(s)) == multiset(s)
    ensures |Sort(s)| == |s|
  {
    if s != [] {
      SortSorts(s[1..]);
      InsertKeepsOrder(s[0], Sort(s[1..]));
      InsertAdds(s[0], Sort(s[1..]));
      assert s == [s[0]] + s[1..];
    }
    assert |Sort(s)| == |multiset(Sort(s))|;
  }

  /** The elements kept after `last`: each is compared with the last element kept so far. */
  function UniqueAfter(last: Time, s: seq<Time>): seq<Time>
    decreases |s|
  {
    if s == [] then []
    else if CloseEnough(last, s[0]) then UniqueAfter(last, s[1..])
    else [s[0]] + UniqueAfter(s[0], s[1..])
  }

  /** The mandatory times a constructor retains. */
  function Retained(input: seq<Time>): (r: seq<Time>)
    requires |input| > 0
    ensures |r| > 0
  {
    SortSorts(input);
    var s := Sort(input);
    [s[0]] + UniqueAfter(s[0], s[1..])
  }

  lemma FromTail(last: Time, s: seq<Time>)
    requires Ascending([last] + s) && s != []
    ensures last <= s[0]
    ensures Ascending([last] + s[1..]) && Ascending([s[0]] + s[1..])
  {
    assert ([last] + s)[0] == last && ([last] + s)[1] == s[0];
    assert [last] + s[1..] == ([last] + s)[0..1] + ([last] + s)[2..];
    assert [s[0]] + s[1..] == ([last] + s)[1..];
  }

  lemma {:induction false} UniqueAfterIsApart(last: Time, s: seq<Time>)
    requires 0.0 <= last
    requires Ascending([last] + s)
    ensures Increasing([last] + UniqueAfter(last, s))
    ensures PairwiseApart([last] + UniqueAfter(last, s))
    decreases |s|
  {
    if s != [] {
      FromTail(last, s);
      if CloseEnough(last, s[0]) {
        UniqueAfterIsApart(last, s[1..]);
      } else {
        UniqueAfterIsApart(s[0], s[1..]);
        var u := [s[0]] + UniqueAfter(s[0], s[1..]);
        forall i | 0 <= i < |u| ensures last < u[i] && !CloseEnough(last, u[i]) {
          assert s[0] <= u[i] by { assert u[0] == s[0]; }
          if CloseEnough(last, u[i]) {
            CloseBelow(last, s[0], u[i]);
          }
        }
      }
    }
  }

  lemma {:induction false} UniqueAfterCovers(last: Time, s: seq<Time>, t: Time) returns (r: Time)
    requires 0.0 <= last && Ascending([last] + s) && t in s
    ensures (r == last || r in UniqueAfter(last, s)) && r <= t && CloseEnough(r, t)
    decreases |s|
  {
    FromTail(last, s);
    if t == s[0] {
      r := if CloseEnough(last, s[0]) then last else t;
    } else if CloseEnough(last, s[0]) {
      r := UniqueAfterCovers(last, s[1..], t);
    } else {
      r := UniqueAfterCovers(s[0], s[1..], t);
    }
  }

  lemma {:induction false} UniqueAfterSelects(last: Time, s: seq<Time>)
    ensures forall t :: t in UniqueAfter(last, s) ==> t in s
    decreases |s|
  {
    if s != [] {
      UniqueAfterSelects(last, s[1..]);
      UniqueAfterSelects(s[0], s[1..]);
    }
  }

  /** Retained mandatory times are input times, strictly increasing and pairwise not close;
      every input time is close to a retained one that does not exceed it. */
  lemma RetainedTimes(input: seq<Time>)
    requires |input| > 0 && NonNegative(input)
    ensures Increasing(Retained(input)) && PairwiseApart(Retained(input))
    ensures forall t :: t in Retained(input) ==> t in input
    ensures forall t :: t in input ==> exists r :: r in Retained(input) && r <= t && CloseEnough(r, t)
  {
    SortSorts(input);
    var s := Sort(input);
    forall t ensures t in s <==> t in input {
      assert t in s <==> t in multiset(s);
      assert t in input <==> t in multiset(input);
    }
    assert s[0] in s;
    assert s == [s[0]] + s[1..];
    UniqueAfterIsApart(s[0], s[1..]);
    UniqueAfterSelects(s[0], s[1..]);
    hide UniqueAfter, Sort;
    forall t | t in input ensures exists r :: r in Retained(input) && r <= t && CloseEnough(r, t) {
      if t == s[0] {
        assert t in Retained(input);
      } else {
        assert t in s[1..];
        var r := UniqueAfterCovers(s[0], s[1..], t);
        assert r in Retained(input);
      }
    }
  }

  /** The constructors reject exactly the inputs that hold a negative time. */
  lemma NegativeTimesRejected(input: seq<Time>)
    requires |input| > 0
    ensures Retained(input)[0] >= 0.0 <==> NonNegative(input)
  {
    SortSorts(input);
    var s := Sort(input);
    forall t | t in input ensures s[0] <= t {
      assert t in multiset(s);
      var i :| 0 <= i < |s| && s[i] == t;
    }
    assert s[0] in multiset(s);
    assert s[0] in input by { assert s[0] in multiset(input); }
  }

  // ----- node lists -----

  /** std::adjacent_difference over all nodes but the first. */
  function Differences(times: seq<Time>): (d: seq<Time>)
    ensures |d| == if |times| == 0 then 0 else |times| - 1
  {
    if |times| == 0 then []
    else seq(|times| - 1, (i: int) requires 0 <= i < |times| - 1 =>
                            if i == 0 then times[1] else times[i + 1] - times[i])
  }

  function Sum(s: seq<real>): real {
    if s == [] then 0.0 else Sum(s[..|s| - 1]) + s[|s| - 1]
  }

  /** The stored steps add up to the nodes. */
  lemma {:induction false} StepsSumToNodes(times: seq<Time>, i: nat)
    requires i < |times| && times[0] == 0.0
    ensures Sum(Differences(times)[..i]) == times[i]
  {
    if i > 0 {
      StepsSumToNodes(times, i - 1);
      var d := Differences(times);
      assert d[..i][..i - 1] == d[..i - 1];
      assert d[..i][i - 1] == d[i - 1];
    }
  }

  function UniformNodes(end: Time, steps: nat): seq<Time>
    requires steps > 0
  {
    seq(steps + 1, (i: int) => end / steps as real * i as real)
  }

  /** The uniform constructor's constant step is also the difference of its nodes, so its steps sum to its nodes. */
  lemma UniformSteps(end: Time, steps: nat)
    requires end > 0.0 && steps > 0
    ensures UniformNodes(end, steps)[0] == 0.0 && Increasing(UniformNodes(end, steps))
    ensures UniformNodes(end, steps)[steps] == end
    ensures Differences(UniformNodes(end, steps)) == seq(steps, _ => end / steps as real)
  {
    var times, dt := UniformNodes(end, steps), end / steps as real;
    Quotient(end, steps as real);
    assert |times| == steps + 1;
    hide UniformNodes, Differences;
    forall i | 0 <= i < steps ensures times[i + 1] - times[i] == dt {
      UniformNode(end, steps, i);
    }
    UniformNode(end, steps, 0);
    ConstantDifferences(times, dt);
    forall i, j | 0 <= i < j <= steps ensures times[i] < times[j] {
      UniformOrder(end, steps, i, j);
    }
    UniformLast(end, steps);
  }

  lemma ConstantDifferences(times: seq<Time>, dt: Time)
    requires |times| > 0 && times[0] == 0.0 && forall i :: 0 <= i < |times| - 1 ==> times[i + 1] - times[i] == dt
    ensures Differences(times) == seq(|times| - 1, _ => dt)
  {
  }

  lemma Multiples(d: real, x: real)
    ensures d * (x + 1.0) == d * x + d && d * 0.0 == 0.0
  {
  }

  lemma UniformNode(end: Time, steps: nat, i: nat)
    requires i < steps
    ensures UniformNodes(end, steps)[0] == 0.0
    ensures UniformNodes(end, steps)[i + 1] == UniformNodes(end, steps)[i] + end / steps as real
  {
    Multiples(end / steps as real, i as real);
    assert (i + 1) as real == i as real + 1.0;
  }

  lemma UniformOrder(end: Time, steps: nat, i: nat, j: nat)
    requires steps > 0 && end / steps as real > 0.0 && i < j <= steps
    ensures UniformNodes(end, steps)[i] < UniformNodes(end, steps)[j]
  {
    ScaleOrder(end / steps as real, i as real, j as real);
  }

  lemma UniformLast(end: Time, steps: nat)
    requires steps > 0
    ensures UniformNodes(end, steps)[steps] == end
  {
    Quotient(end, steps as real);
  }

  function MandatoryNodes(mandatory: seq<Time>): seq<Time>
    requires |mandatory| > 0
  {
    (if mandatory[0] > 0.0 then [0.0] else []) + mandatory
  }

  function Smallest(s: seq<real>): (m: real)
    requires |s| > 0
    ensures m in s && forall x :: x in s ==> m <= x
  {
    if |s| == 1 then s[0]
    else
      var m := Smallest(s[1..]);
      assert s == [s[0]] + s[1..];
      if s[0] <= m then s[0] else m
  }

  /** Distances between consecutive mandatory times, counted from zero; a leading zero is dropped. */
  function Gaps(mandatory: seq<Time>): (d: seq<Time>)
    requires |mandatory| > 0
  {
    var diff := seq(|mandatory|, (i: int) requires 0 <= i < |mandatory| =>
                                   if i == 0 then mandatory[0] else mandatory[i] - mandatory[i - 1]);
    if diff[0] == 0.0 then diff[1..] else diff
  }

  /** The list of mandatory times has an interval that the grid can divide. The constructor with `steps == 0`
      dereferences the end of an empty list when it has none. */
  predicate HasInterval(mandatory: seq<Time>) {
    |mandatory| > 1 || (|mandatory| == 1 && mandatory[0] != 0.0)
  }

  function DtMax(mandatory: seq<Time>, steps: nat): real
    requires |mandatory| > 0
    requires steps > 0 || HasInterval(mandatory)
  {
    if steps == 0 then Smallest(Gaps(mandatory))
    else mandatory[|mandatory| - 1] / steps as real
  }

  /** Number of steps in a period: the nearest integer, at least one. */
  function StepCount(length: real, dtMax: real): (n: nat)
    requires length > 0.0 && dtMax > 0.0
    ensures n >= 1
  {
    var n := (length / dtMax + 0.5).Floor;
    if n != 0 then n else 1
  }

  /** What one round of the constructor's loop appends. */
  function PeriodNodes(begin: Time, end: Time, dtMax: real): (s: seq<Time>)
    requires begin <= end && (end != 0.0 ==> begin < end && dtMax > 0.0)
  {
    if end == 0.0 then []
    else
      var n := StepCount(end - begin, dtMax);
      seq(n, (k: int) => begin + (k + 1) as real * ((end - begin) / n as real))
  }

  /** The mandatory times can follow `begin` as the ends of successive periods. */
  predicate Follows(begin: Time, mandatory: seq<Time>, dtMax: real) {
    && 0.0 <= begin
    && Increasing(mandatory)
    && (|mandatory| > 0 ==> begin < mandatory[0] || (begin == 0.0 && mandatory[0] == 0.0))
    && (|mandatory| > 0 && mandatory[|mandatory| - 1] != 0.0 ==> dtMax > 0.0)
  }

  lemma FollowsTail(begin: Time, mandatory: seq<Time>, dtMax: real)
    requires Follows(begin, mandatory, dtMax) && mandatory != []
    ensures mandatory[0] != 0.0 ==> dtMax > 0.0
    ensures Follows(mandatory[0], mandatory[1..], dtMax)
  {
  }

  /** What the loop over the mandatory times leaves after the node `begin`. */
  function NodesAfter(begin: Time, mandatory: seq<Time>, dtMax: real): seq<Time>
    requires Follows(begin, mandatory, dtMax)
    decreases |mandatory|
  {
    if mandatory == [] then []
    else
      FollowsTail(begin, mandatory, dtMax);
      PeriodNodes(begin, mandatory[0], dtMax) + NodesAfter(mandatory[0], mandatory[1..], dtMax)
  }

  lemma NoNodesLeft(dtMax: real)
    ensures forall begin :: Follows(begin, [], dtMax) ==> NodesAfter(begin, [], dtMax) == []
  {
  }

  lemma NoNodesAtZero(begin: Time, dtMax: real)
    requires begin <= 0.0
    ensures PeriodNodes(begin, 0.0, dtMax) == []
  {
  }

  lemma NodesUnroll(done: seq<Time>, begin: Time, mandatory: seq<Time>, i: nat, dtMax: real)
    requires i < |mandatory| && Follows(begin, mandatory[i..], dtMax)
    ensures mandatory[i] != 0.0 ==> dtMax > 0.0
    ensures begin <= mandatory[i] && (mandatory[i] != 0.0 ==> begin < mandatory[i])
    ensures 0.0 <= begin
    ensures Follows(mandatory[i], mandatory[i + 1..], dtMax)
    ensures done + NodesAfter(begin, mandatory[i..], dtMax)
         == done + PeriodNodes(begin, mandatory[i], dtMax) + NodesAfter(mandatory[i], mandatory[i + 1..], dtMax)
  {
    FollowsTail(begin, mandatory[i..], dtMax);
    assert mandatory[i..][1..] == mandatory[i + 1..];
  }

  /** Periods that the grid subdivides: all but a leading period of length zero. */
  function PositiveCount(mandatory: seq<Time>): nat {
    if |mandatory| > 0 && mandatory[0] == 0.0 then |mandatory| - 1 else |mandatory|
  }

  // ----- properties of the subdivided grid -----

  lemma DivideSum(a: real, b: real, c: real)
    requires c > 0.0
    ensures (a + b) / c == a / c + b / c
  {
  }

  /** The step of a period in units of `dtMax`, for a period of `x` such units. */
  lemma StepRatio(x: real, n: nat)
    requires x > 0.0 && n >= 1
    requires x < n as real + 0.5 && (n == 1 || n as real - 0.5 <= x)
    ensures 0.0 < x / n as real < 1.5
    ensures x >= 1.0 ==> x / n as real >= 0.75
  {
    var r := n as real;
    assert r >= 1.0 && (r == 1.0 || r >= 2.0);
    Quotient(x, r);
    RatioBounds(x / r, r, x);
  }

  lemma RatioBounds(q: real, r: real, x: real)
    requires q * r == x && x > 0.0 && (r == 1.0 || r >= 2.0)
    requires x < r + 0.5 && (r == 1.0 || r - 0.5 <= x)
    ensures 0.0 < q < 1.5
    ensures x >= 1.0 ==> q >= 0.75
  {
    if q <= 0.0 {
      ScaleOrder(r, q, 0.0);
    } else if q >= 1.5 {
      ScaleOrder(r, 1.5, q);
    } else if q < 0.75 {
      ScaleOrder(r, q, 0.75);
    }
  }

  /** The step of a period as a multiple of `dtMax`. */
  lemma StepLength(length: real, dtMax: real, n: nat)
    requires length > 0.0 && dtMax > 0.0 && n >= 1
    ensures length / n as real == length / dtMax / n as real * dtMax
  {
    Quotient(length, dtMax);
    Quotient(length / dtMax, n as real);
    assert (length / dtMax / n as real * dtMax) * n as real == length;
  }

  lemma StepCountBounds(length: real, dtMax: real)
    requires length > 0.0 && dtMax > 0.0
    ensures var n := StepCount(length, dtMax);
      && length / dtMax - 0.5 < n as real < length / dtMax + 1.0
      && 0.0 < length / n as real < 1.5 * dtMax
    ensures length >= dtMax ==>
      && (length / dtMax + 0.5).Floor >= 1
      && length / StepCount(length, dtMax) as real >= 0.75 * dtMax
  {
    var x := length / dtMax;
    var n := StepCount(length, dtMax);
    Quotient(length, dtMax);
    StepRatio(x, n);
    StepLength(length, dtMax, n);
    StepRange(length / n as real, x / n as real, dtMax);
  }

  lemma StepRange(d: real, q: real, dtMax: real)
    requires d == q * dtMax && dtMax > 0.0 && 0.0 < q < 1.5
    ensures 0.0 < d < 1.5 * dtMax
    ensures q >= 0.75 ==> d >= 0.75 * dtMax
  {
    ScaleOrder(dtMax, q, 1.5);
    ScaleOrder(dtMax, 0.0, q);
    ScaleOrder(dtMax, 0.75, q);
  }

  /** Distance from the node before position `k` to the node there. */
  function Gap(begin: Time, s: seq<Time>, k: nat): real
    requires k < |s|
  {
    s[k] - (if k == 0 then begin else s[k - 1])
  }

  /** Every step of the node list lies in the range [lo, hi) and is positive. */
  predicate StepsWithin(begin: Time, s: seq<Time>, lo: real, hi: real) {
    forall k :: 0 <= k < |s| ==> 0.0 < Gap(begin, s, k) && lo <= Gap(begin, s, k) < hi
  }

  function Last(begin: Time, s: seq<Time>): Time {
    if s == [] then begin else s[|s| - 1]
  }

  lemma StepsWithinConcat(begin: Time, s: seq<Time>, t: seq<Time>, lo: real, hi: real)
    requires StepsWithin(begin, s, lo, hi) && StepsWithin(Last(begin, s), t, lo, hi)
    ensures StepsWithin(begin, s + t, lo, hi)
    ensures Last(begin, s + t) == Last(Last(begin, s), t)
  {
    forall k | 0 <= k < |s + t|
      ensures Gap(begin, s + t, k) == if k < |s| then Gap(begin, s, k) else Gap(Last(begin, s), t, k - |s|)
    {
    }
  }

  lemma {:induction false} PositiveStepsIncrease(begin: Time, s: seq<Time>, lo: real, hi: real)
    requires StepsWithin(begin, s, lo, hi)
    ensures Increasing([begin] + s)
    decreases |s|
  {
    if s != [] {
      assert begin < s[0] by { assert Gap(begin, s, 0) > 0.0; }
      forall k | 0 <= k < |s[1..]| ensures Gap(s[0], s[1..], k) == Gap(begin, s, k + 1) {}
      PositiveStepsIncrease(s[0], s[1..], lo, hi);
      assert [s[0]] + s[1..] == s;
    }
  }

  /** Every period length is at least `dtMax`; this is how `dtMax` is chosen when `steps == 0`. */
  predicate PeriodsAtLeast(begin: Time, mandatory: seq<Time>, dtMax: real) {
    forall k :: 0 <= k < |mandatory| ==> mandatory[k] == 0.0 || Gap(begin, mandatory, k) >= dtMax
  }

  lemma PeriodSteps(begin: Time, end: Time, dtMax: real)
    requires 0.0 <= begin < end && dtMax > 0.0
    ensures var s := PeriodNodes(begin, end, dtMax);
      && Last(begin, s) == end && end in s
      && StepsWithin(begin, s, if end - begin >= dtMax then 0.75 * dtMax else 0.0, 1.5 * dtMax)
  {
    var s := PeriodNodes(begin, end, dtMax);
    assert |s| == StepCount(end - begin, dtMax);
    StepCountBounds(end - begin, dtMax);
    PeriodIsRegular(begin, end, dtMax);
    hide StepCount, PeriodNodes;
    assert s[|s| - 1] in s;
  }

  /** The steps of a period are equal, and their number is the nearest integer to its length in target steps, or one. */
  lemma PeriodIsRegular(begin: Time, end: Time, dtMax: real)
    requires 0.0 <= begin < end && dtMax > 0.0
    ensures var s := PeriodNodes(begin, end, dtMax);
      && |s| >= 1 && s[|s| - 1] == end
      && (forall k :: 0 <= k < |s| ==> Gap(begin, s, k) == (end - begin) / |s| as real)
      && (|s| > 1 ==> -0.5 < |s| as real - (end - begin) / dtMax <= 0.5)
  {
    var n := StepCount(end - begin, dtMax);
    StepCountNearest(end - begin, dtMax);
    hide StepCount;
    Quotient(end - begin, n as real);
    forall k: nat | k < n ensures Gap(begin, PeriodNodes(begin, end, dtMax), k) == (end - begin) / n as real {
      PeriodGap(begin, end, dtMax, k);
    }
  }

  lemma StepCountNearest(length: real, dtMax: real)
    requires length > 0.0 && dtMax > 0.0
    ensures StepCount(length, dtMax) > 1 ==> -0.5 < StepCount(length, dtMax) as real - length / dtMax <= 0.5
  {
  }

  lemma PeriodGap(begin: Time, end: Time, dtMax: real, k: nat)
    requires 0.0 <= begin < end && dtMax > 0.0 && k < StepCount(end - begin, dtMax)
    ensures var s, n := PeriodNodes(begin, end, dtMax), StepCount(end - begin, dtMax);
      |s| == n && Gap(begin, s, k) == (end - begin) / n as real
  {
    hide StepCount;
    var d := (end - begin) / StepCount(end - begin, dtMax) as real;
    Multiples(d, k as real);
    assert (k + 1) as real == k as real + 1.0;
  }

  lemma PeriodFollows(begin: Time, mandatory: seq<Time>, dtMax: real, least: real)
    requires Follows(begin, mandatory, dtMax) && mandatory != []
    requires forall k :: 0 <= k < |mandatory| ==> mandatory[k] == 0.0 || Gap(begin, mandatory, k) >= least
    ensures mandatory[0] == 0.0 || mandatory[0] - begin >= least
    ensures forall k :: 0 <= k < |mandatory[1..]| ==>
      mandatory[1..][k] == 0.0 || Gap(mandatory[0], mandatory[1..], k) >= least
  {
    var rest := mandatory[1..];
    forall k | 0 <= k < |rest| ensures Gap(mandatory[0], rest, k) == Gap(begin, mandatory, k + 1) {}
    assert mandatory[0] == 0.0 || Gap(begin, mandatory, 0) >= least;
  }

  /** Steps in the subdivided list; `least` is a lower bound of the period lengths. */
  lemma {:induction false} SubdividedSteps(begin: Time, mandatory: seq<Time>, dtMax: real, least: real)
    requires Follows(begin, mandatory, dtMax) && (least == dtMax || least == 0.0)
    requires forall k :: 0 <= k < |mandatory| ==> mandatory[k] == 0.0 || Gap(begin, mandatory, k) >= least
    ensures StepsWithin(begin, NodesAfter(begin, mandatory, dtMax), 0.75 * least, 1.5 * dtMax)
    ensures Last(begin, NodesAfter(begin, mandatory, dtMax)) == Last(begin, mandatory)
    decreases |mandatory|
  {
    if mandatory != [] {
      FollowsTail(begin, mandatory, dtMax);
      PeriodFollows(begin, mandatory, dtMax, least);
      var end, rest := mandatory[0], mandatory[1..];
      var s, t := PeriodNodes(begin, end, dtMax), NodesAfter(end, rest, dtMax);
      if end != 0.0 {
        PeriodSteps(begin, end, dtMax);
      }
      SubdividedSteps(end, rest, dtMax, least);
      hide PeriodNodes, StepsWithin;
      StepsWithinConcat(begin, s, t, 0.75 * least, 1.5 * dtMax);
    }
  }

  lemma {:induction false} MandatoryIsNode(begin: Time, mandatory: seq<Time>, dtMax: real, i: nat)
    requires Follows(begin, mandatory, dtMax) && i < |mandatory|
    ensures mandatory[i] in [begin] + NodesAfter(begin, mandatory, dtMax)
    decreases |mandatory|
  {
    FollowsTail(begin, mandatory, dtMax);
    var end, rest := mandatory[0], mandatory[1..];
    var s, t := PeriodNodes(begin, end, dtMax), NodesAfter(end, rest, dtMax);
    assert NodesAfter(begin, mandatory, dtMax) == s + t;
    assert end in [begin] + s by {
      if end != 0.0 {
        PeriodSteps(begin, end, dtMax);
      }
    }
    if i > 0 {
      MandatoryIsNode(end, rest, dtMax, i - 1);
    }
  }

  /** A count `n` of steps over `m` periods whose lengths add up to `x` times the target step. */
  predicate CountWithin(n: nat, m: nat, x: real) {
    && n >= m
    && (m > 0 ==> x - m as real / 2.0 < n as real < x + m as real)
    && (m == 0 ==> n == 0 && x == 0.0)
  }

  function Units(begin: Time, end: Time, dtMax: real): real
    requires dtMax > 0.0
  {
    (end - begin) / dtMax
  }

  lemma PeriodCount(begin: Time, end: Time, last: Time, dtMax: real, n: nat, m: nat)
    requires 0.0 <= begin <= end && dtMax > 0.0 && (end != 0.0 ==> begin < end)
    requires CountWithin(n, m, Units(end, last, dtMax))
    ensures CountWithin(|PeriodNodes(begin, end, dtMax)| + n, if end == 0.0 then m else m + 1,
                        Units(begin, last, dtMax))
  {
    DivideSum(end - begin, last - end, dtMax);
    if end != 0.0 {
      StepCountBounds(end - begin, dtMax);
    }
  }

  lemma {:induction false} SubdividedCount(begin: Time, mandatory: seq<Time>, dtMax: real)
    requires Follows(begin, mandatory, dtMax) && dtMax > 0.0
    ensures CountWithin(|NodesAfter(begin, mandatory, dtMax)|, PositiveCount(mandatory),
                        Units(begin, Last(begin, mandatory), dtMax))
    decreases |mandatory|
  {
    if mandatory != [] {
      FollowsTail(begin, mandatory, dtMax);
      var end, rest := mandatory[0], mandatory[1..];
      SubdividedCount(end, rest, dtMax);
      assert Last(begin, mandatory) == Last(end, rest);
      assert PositiveCount(rest) == |rest|;
      PeriodCount(begin, end, Last(end, rest), dtMax, |NodesAfter(end, rest, dtMax)|, |rest|);
    }
  }

  /** Nodes of the constructor with a desired number of steps. */
  function SubdividedNodes(mandatory: seq<Time>, steps: nat): seq<Time>
    requires |mandatory| > 0 && Increasing(mandatory) && mandatory[0] >= 0.0
    requires steps > 0 || HasInterval(mandatory)
  {
    MandatoryFollows(mandatory, steps);
    [0.0] + NodesAfter(0.0, mandatory, DtMax(mandatory, steps))
  }

  lemma GapListed(mandatory: seq<Time>, k: nat)
    requires k < |mandatory| && mandatory[k] != 0.0 && Increasing(mandatory)
    ensures Gap(0.0, mandatory, k) in Gaps(mandatory)
  {
    var gaps := Gaps(mandatory);
    assert gaps[if mandatory[0] == 0.0 then k - 1 else k] == Gap(0.0, mandatory, k);
  }

  lemma MandatoryFollows(mandatory: seq<Time>, steps: nat)
    requires |mandatory| > 0 && Increasing(mandatory) && mandatory[0] >= 0.0
    requires steps > 0 || HasInterval(mandatory)
    ensures Follows(0.0, mandatory, DtMax(mandatory, steps))
    ensures steps == 0 ==> PeriodsAtLeast(0.0, mandatory, DtMax(mandatory, steps))
    ensures DtMax(mandatory, steps) > 0.0 || mandatory == [0.0]
  {
    if steps == 0 {
      var gaps := Gaps(mandatory);
      forall k | 0 <= k < |mandatory| && mandatory[k] != 0.0 ensures Gap(0.0, mandatory, k) >= Smallest(gaps) {
        GapListed(mandatory, k);
      }
      GapsPositive(mandatory);
    } else {
      hide Gaps, Smallest;
      LastOfTargets(mandatory, steps);
    }
  }

  /** Where a period begins. */
  function Previous(mandatory: seq<Time>, k: nat): Time
    requires k < |mandatory|
  {
    if k == 0 then 0.0 else mandatory[k - 1]
  }

  /** The step that a grid aims at: the shortest distance between two consecutive mandatory times, counted from zero,
      or the given fraction of the last time. */
  ghost predicate TargetStep(mandatory: seq<Time>, steps: nat, g: real)
    requires |mandatory| > 0
  {
    if steps > 0 then g * steps as real == mandatory[|mandatory| - 1]
    else
      && (exists j: nat :: j < |mandatory| && mandatory[j] != 0.0 && g == mandatory[j] - Previous(mandatory, j))
      && (forall j: nat :: j < |mandatory| && mandatory[j] != 0.0 ==> g <= mandatory[j] - Previous(mandatory, j))
  }

  lemma DtMaxIsTarget(mandatory: seq<Time>, steps: nat, g: real)
    requires |mandatory| > 0 && Increasing(mandatory) && mandatory[0] >= 0.0
    requires steps > 0 || HasInterval(mandatory)
    ensures TargetStep(mandatory, steps, g) <==> g == DtMax(mandatory, steps)
  {
    if steps > 0 {
      Quotient(mandatory[|mandatory| - 1], steps as real);
      TargetIsFraction(mandatory[|mandatory| - 1], steps as real, g);
    } else {
      LeastGap(mandatory, g);
    }
  }

  lemma TargetIsFraction(last: Time, n: real, g: real)
    requires n > 0.0
    ensures g * n == last <==> g == last / n
  {
    Quotient(last, n);
    CancelFactor(n, g, last / n);
    CancelFactor(n, last / n, g);
  }

  lemma GapsAreListed(mandatory: seq<Time>, i: nat) returns (j: nat)
    requires HasInterval(mandatory) && Increasing(mandatory) && mandatory[0] >= 0.0 && i < |Gaps(mandatory)|
    ensures j < |mandatory| && mandatory[j] != 0.0 && Gap(0.0, mandatory, j) == Gaps(mandatory)[i]
  {
    j := if mandatory[0] == 0.0 then i + 1 else i;
  }

  lemma LeastGap(mandatory: seq<Time>, g: real)
    requires HasInterval(mandatory) && Increasing(mandatory) && mandatory[0] >= 0.0
    ensures TargetStep(mandatory, 0, g) <==> g == Smallest(Gaps(mandatory))
  {
    TargetIsGap(mandatory, g);
    hide Increasing, HasInterval, Gaps, Smallest, Gap, TargetStep;
    var gaps := Gaps(mandatory);
    var least := Smallest(gaps);
    forall j: nat | j < |mandatory| && mandatory[j] != 0.0 ensures Gap(0.0, mandatory, j) >= least {
      GapListed(mandatory, j);
    }
    var i :| 0 <= i < |gaps| && gaps[i] == least;
    var j := GapsAreListed(mandatory, i);
  }

  lemma TargetIsGap(mandatory: seq<Time>, g: real)
    requires |mandatory| > 0
    ensures TargetStep(mandatory, 0, g) <==>
      && (exists j: nat :: j < |mandatory| && mandatory[j] != 0.0 && g == Gap(0.0, mandatory, j))
      && (forall j: nat :: j < |mandatory| && mandatory[j] != 0.0 ==> g <= Gap(0.0, mandatory, j))
  {
    assert forall j: nat :: j < |mandatory| ==>
      Gap(0.0, mandatory, j) == mandatory[j] - Previous(mandatory, j);
    hide Gap, Previous;
  }

  lemma GapsPositive(mandatory: seq<Time>)
    requires Increasing(mandatory) && HasInterval(mandatory) && mandatory[0] >= 0.0
    ensures Smallest(Gaps(mandatory)) > 0.0
  {
    var gaps := Gaps(mandatory);
    assert forall k :: 0 <= k < |gaps| ==> gaps[k] > 0.0;
    assert Smallest(gaps) in gaps;
  }

  lemma LastOfTargets(mandatory: seq<Time>, steps: nat)
    requires |mandatory| > 0 && Increasing(mandatory) && mandatory[0] >= 0.0 && steps > 0
    ensures var dtMax := mandatory[|mandatory| - 1] / steps as real;
      dtMax > 0.0 || (mandatory == [0.0] && dtMax == 0.0)
  {
    var last := mandatory[|mandatory| - 1];
    if last > 0.0 {
      Quotient(last, steps as real);
    } else {
      assert |mandatory| == 1;
    }
  }

  lemma StepsOfNodes(nodes: seq<Time>, lo: real, hi: real)
    requires StepsWithin(0.0, nodes, lo, hi)
    ensures var times := [0.0] + nodes;
      forall k :: 0 < k < |times| ==> 0.0 < times[k] - times[k - 1] < hi && lo <= times[k] - times[k - 1]
  {
    var times := [0.0] + nodes;
    forall k | 0 < k < |times| ensures times[k] - times[k - 1] == Gap(0.0, nodes, k - 1) {}
  }

  lemma PeriodsLeast(begin: Time, mandatory: seq<Time>, dtMax: real)
    requires PeriodsAtLeast(begin, mandatory, dtMax)
    ensures forall k :: 0 <= k < |mandatory| ==> mandatory[k] == 0.0 || Gap(begin, mandatory, k) >= dtMax
  {
  }

  lemma PeriodsPositive(begin: Time, mandatory: seq<Time>, dtMax: real)
    requires Follows(begin, mandatory, dtMax)
    ensures forall k :: 0 <= k < |mandatory| ==> mandatory[k] == 0.0 || Gap(begin, mandatory, k) >= 0.0
  {
  }

  /** The subdivided grid starts at zero and strictly increases, every mandatory time is a node, the last one is the
      last node, and each step stays within the stated range around the target step. */
  lemma SubdividedGrid(mandatory: seq<Time>, steps: nat)
    requires |mandatory| > 0 && Increasing(mandatory) && mandatory[0] >= 0.0
    requires steps > 0 || HasInterval(mandatory)
    ensures var times, dtMax := SubdividedNodes(mandatory, steps), DtMax(mandatory, steps);
      && |times| > 0 && times[0] == 0.0 && Increasing(times) && times[|times| - 1] == mandatory[|mandatory| - 1]
      && (forall t :: t in mandatory ==> t in times)
      && TargetStep(mandatory, steps, dtMax)
      && (forall k :: 0 < k < |times| ==> 0.0 < times[k] - times[k - 1] < 1.5 * dtMax)
      && (steps == 0 ==> forall k :: 0 < k < |times| ==> 0.75 * dtMax <= times[k] - times[k - 1])
  {
    MandatoryFollows(mandatory, steps);
    var dtMax := DtMax(mandatory, steps);
    DtMaxIsTarget(mandatory, steps, dtMax);
    hide TargetStep, DtMax, HasInterval, StepsWithin, NodesAfter, PeriodsAtLeast;
    var nodes := NodesAfter(0.0, mandatory, dtMax);
    var times := SubdividedNodes(mandatory, steps);
    if steps == 0 {
      PeriodsLeast(0.0, mandatory, dtMax);
    } else {
      PeriodsPositive(0.0, mandatory, dtMax);
    }
    SubdividedSteps(0.0, mandatory, dtMax, if steps == 0 then dtMax else 0.0);
    forall t | t in mandatory ensures t in times {
      var i :| 0 <= i < |mandatory| && mandatory[i] == t;
      MandatoryIsNode(0.0, mandatory, dtMax, i);
    }
    var lo := if steps == 0 then 0.75 * dtMax else 0.0;
    PositiveStepsIncrease(0.0, nodes, lo, 1.5 * dtMax);
    StepsOfNodes(nodes, lo, 1.5 * dtMax);
  }

  lemma TargetSteps(last: Time, steps: nat)
    requires last > 0.0 && steps > 0
    ensures last / steps as real > 0.0
    ensures Units(0.0, last, last / steps as real) == steps as real
  {
    var dtMax := last / steps as real;
    Quotient(last, steps as real);
    Quotient(last, dtMax);
    CancelFactor(dtMax, last / dtMax, steps as real);
    CancelFactor(dtMax, steps as real, last / dtMax);
  }

  /** With `steps` requested over `m` positive mandatory times the number of intervals lies strictly between
      `steps - m/2` and `steps + m`, and is at least `m`. */
  lemma SubdividedIntervals(mandatory: seq<Time>, steps: nat)
    requires |mandatory| > 0 && Increasing(mandatory) && mandatory[0] >= 0.0 && steps > 0
    ensures var intervals, m := |SubdividedNodes(mandatory, steps)| - 1, PositiveCount(mandatory);
      && intervals >= m
      && (m > 0 ==> steps as real - m as real / 2.0 < intervals as real < (steps + m) as real)
      && (m == 0 ==> intervals == 0)
  {
    MandatoryFollows(mandatory, steps);
    var dtMax := DtMax(mandatory, steps);
    if mandatory == [0.0] {
      assert mandatory[1..] == [];
      assert NodesAfter(0.0, mandatory, dtMax) == PeriodNodes(0.0, 0.0, dtMax) + NodesAfter(0.0, [], dtMax);
    } else {
      SubdividedCount(0.0, mandatory, dtMax);
      var last := mandatory[|mandatory| - 1];
      TargetSteps(last, steps);
    }
  }

  // ----- when the desired number of steps is reached -----

  lemma ShortPeriod(begin: Time, end: Time, dtMax: real)
    requires 0.0 <= begin < end && dtMax > 0.0 && end - begin < dtMax / 2.0
    ensures |PeriodNodes(begin, end, dtMax)| == 1
  {
    Quotient(end - begin, dtMax);
    ShortRatio((end - begin) / dtMax, dtMax, end - begin);
    assert StepCount(end - begin, dtMax) == 1;
  }

  lemma ShortRatio(x: real, dtMax: real, length: real)
    requires x * dtMax == length < dtMax / 2.0 && dtMax > 0.0
    ensures x < 0.5
  {
    CancelFactor(dtMax, x, 0.5);
  }

  /** Periods shorter than half the target step get one step each; only the last period is subdivided. */
  lemma {:induction false} ShortPeriods(begin: Time, mandatory: seq<Time>, dtMax: real)
    requires Follows(begin, mandatory, dtMax) && mandatory != [] && mandatory[0] != 0.0 && dtMax > 0.0
    requires forall k :: 0 <= k < |mandatory| - 1 ==> Gap(begin, mandatory, k) < dtMax / 2.0
    ensures Gap(begin, mandatory, |mandatory| - 1) > 0.0
    ensures |NodesAfter(begin, mandatory, dtMax)|
         == |mandatory| - 1 + StepCount(Gap(begin, mandatory, |mandatory| - 1), dtMax)
    decreases |mandatory|
  {
    FollowsTail(begin, mandatory, dtMax);
    var end, rest := mandatory[0], mandatory[1..];
    assert |PeriodNodes(begin, end, dtMax)| == StepCount(end - begin, dtMax);
    if rest == [] {
      assert NodesAfter(end, rest, dtMax) == [];
    } else {
      forall k | 0 <= k < |rest| ensures Gap(end, rest, k) == Gap(begin, mandatory, k + 1) {}
      assert Gap(begin, mandatory, 0) < dtMax / 2.0;
      ShortPeriod(begin, end, dtMax);
      ShortPeriods(end, rest, dtMax);
    }
  }

  /** Equal short periods followed by one that reaches the time 1. */
  function ShortLeads(k: nat, e: real): seq<Time> {
    seq(k, (i: int) => if i < k - 1 then Times((i + 1) as real, e) else 1.0)
  }

  lemma ShortLead(k: nat, e: real, i: nat)
    requires i + 1 < k && e > 0.0 && Times(k as real, e) <= 0.5
    ensures Times((i + 1) as real, e) == Times(i as real, e) + e < 1.0 && Times(0 as real, e) == 0.0
  {
    assert (i + 1) as real == i as real + 1.0;
    ScaleOrder(e, (i + 1) as real, k as real);
  }

  lemma TimesOrder(i: nat, j: nat, e: real)
    requires i < j && e > 0.0
    ensures Times(i as real, e) < Times(j as real, e)
  {
    ScaleOrder(e, i as real, j as real);
  }

  lemma ShortLeadsOrder(k: nat, e: real, i: nat, j: nat)
    requires i < j < k && e > 0.0 && Times(k as real, e) <= 0.5
    ensures ShortLeads(k, e)[i] < ShortLeads(k, e)[j]
  {
    hide Times;
    ShortLead(k, e, i);
    TimesOrder(i + 1, j + 1, e);
  }

  lemma ShortLeadsGaps(k: nat, e: real)
    requires k >= 2 && e > 0.0 && Times(k as real, e) <= 0.5
    ensures Increasing(ShortLeads(k, e)) && ShortLeads(k, e)[0] > 0.0
    ensures forall i :: 0 <= i < k - 1 ==> Gap(0.0, ShortLeads(k, e), i) == e
    ensures Gap(0.0, ShortLeads(k, e), k - 1) == 1.0 - Times((k - 1) as real, e)
  {
    hide Times;
    var m := ShortLeads(k, e);
    ShortLead(k, e, 0);
    forall i | 0 <= i < k - 1 ensures Gap(0.0, m, i) == e {
      ShortLead(k, e, i);
    }
    forall i, j | 0 <= i < j < k ensures m[i] < m[j] {
      ShortLeadsOrder(k, e, i, j);
    }
  }

  /** A length that makes the leading periods short whatever their number. */
  function ShortLength(k: nat, steps: nat): real
    requires k > 0 && steps > 0
  {
    Over(Over(0.5, k as real), steps as real)
  }

  lemma ShortLengthBounds(k: nat, steps: nat)
    requires k >= 2 && steps > 0
    ensures var e, dtMax := ShortLength(k, steps), 1.0 / steps as real;
      && e > 0.0 && dtMax > 0.0 && e < dtMax / 2.0 && Times(k as real, e) <= 0.5
      && 1.0 - Times((k - 1) as real, e) > 0.0
      && (1.0 - Times((k - 1) as real, e)) / dtMax > steps as real - 0.5
  {
    var e, s := ShortLength(k, steps), steps as real;
    TimesOver(Over(0.5, k as real), s);
    TimesOver(0.5, k as real);
    Quotient(1.0, s);
    assert Times(1.0 / s, s) == 1.0;
    hide Times, Over;
    ShortLengthOrder(k as real, e, s, 1.0 / s);
    assert (k - 1) as real == k as real - 1.0;
  }

  lemma ShortLengthOrder(k: real, e: real, s: real, dtMax: real)
    requires k >= 2.0 && s >= 1.0 && Times(Times(e, s), k) == 0.5 && Times(dtMax, s) == 1.0
    ensures e > 0.0 && dtMax > 0.0 && e < dtMax / 2.0 && Times(k, e) <= 0.5
    ensures 1.0 - Times(k - 1.0, e) > 0.0 && (1.0 - Times(k - 1.0, e)) / dtMax > s - 0.5
  {
    var y := Times(e, s);
    CancelFactor(k, 0.0, y);
    CancelFactor(k, y, 0.25);
    CancelFactor(s, 0.0, e);
    CancelFactor(s, 0.0, dtMax);
    CancelFactor(s, e, dtMax / 2.0);
    assert Times(k, e) * s == 0.5;
    CancelFactor(s, Times(k, e), 0.5);
    var last := 1.0 - Times(k - 1.0, e);
    assert Times(k - 1.0, e) == Times(k, e) - e;
    assert last * s == s - 0.5 + y;
    assert last * s * dtMax == last * (dtMax * s) == last;
    Quotient(last, dtMax);
    CancelFactor(dtMax, last / dtMax, last * s);
    CancelFactor(dtMax, last * s, last / dtMax);
  }

  /** The upper bound is attained: of `k` times, all but the last get a step to themselves. */
  lemma ShortLeadsAddSteps(k: nat, steps: nat)
    requires k >= 2 && steps > 0
    ensures var m := ShortLeads(k, ShortLength(k, steps));
      && |m| == PositiveCount(m) == k && Increasing(m) && m[0] > 0.0
      && |SubdividedNodes(m, steps)| - 1 == steps + k - 1
  {
    var e := ShortLength(k, steps);
    ShortLengthBounds(k, steps);
    ShortLeadsGaps(k, e);
    var m, dtMax := ShortLeads(k, e), 1.0 / steps as real;
    MandatoryFollows(m, steps);
    ShortPeriods(0.0, m, dtMax);
    StepCountBounds(Gap(0.0, m, k - 1), dtMax);
    SubdividedIntervals(m, steps);
  }

  /** A desired number of steps is reached for all lists with a given number of positive times exactly when there is
      only one. */
  lemma StepsReached(steps: nat, k: nat)
    requires steps > 0 && k > 0
    ensures (forall m :: |m| > 0 && Increasing(m) && m[0] >= 0.0 && PositiveCount(m) == k ==>
               |SubdividedNodes(m, steps)| - 1 == steps) <==> k == 1
  {
    hide *;
    if k == 1 {
      forall m | |m| > 0 && Increasing(m) && m[0] >= 0.0 && PositiveCount(m) == k
        ensures |SubdividedNodes(m, steps)| - 1 == steps
      {
        SubdividedIntervals(m, steps);
      }
    } else {
      ShortLeadsAddSteps(k, steps);
    }
  }

  /** One step is asked for and two are made. */
  lemma OneStepMissed()
    ensures |SubdividedNodes([1.0, 2.0], 1)| - 1 == 2
  {
    SubdividedIntervals([1.0, 2.0], 1);
  }

  /** With `steps == 0` every period rounds to at least one step by itself, so the guard never fires. */
  lemma GuardNeverFires(mandatory: seq<Time>, k: nat)
    requires |mandatory| > 0 && Increasing(mandatory) && mandatory[0] >= 0.0 && HasInterval(mandatory)
    requires k < |mandatory| && mandatory[k] != 0.0
    ensures TargetStep(mandatory, 0, DtMax(mandatory, 0)) && DtMax(mandatory, 0) > 0.0
    ensures (Gap(0.0, mandatory, k) / DtMax(mandatory, 0) + 0.5).Floor >= 1
  {
    MandatoryFollows(mandatory, 0);
    DtMaxIsTarget(mandatory, 0, DtMax(mandatory, 0));
    hide TargetStep;
    StepCountBounds(Gap(0.0, mandatory, k), DtMax(mandatory, 0));
  }

  /** The nearest integer to `x`, the larger of two, but at least one. */
  predicate NearestOrOne(n: nat, x: real) {
    n >= 1 && x < n as real + 0.5 && (n == 1 || n as real - 0.5 <= x)
  }

  /** That number is determined, and it is one more for a unit more. */
  lemma NearestIsUnique(n: nat, m: nat, x: real)
    requires NearestOrOne(n, x) && NearestOrOne(m, x)
    ensures n == m
    ensures x >= 0.5 ==> NearestOrOne(n + 1, x + 1.0)
  {
    assert n as real - m as real < 1.0 && m as real - n as real < 1.0;
  }

  /** From position `lo` on the nodes divide the period from `a` to `b` into `n` equal steps. */
  predicate DividedAt(times: seq<Time>, lo: nat, a: Time, b: Time, n: nat) {
    && n >= 1 && lo + n < |times| && times[lo + n] == b
    && forall i :: lo <= i <= lo + n ==> times[i] == a + (i - lo) as real * ((b - a) / n as real)
  }

  lemma PeriodIsDivided(a: Time, b: Time, dtMax: real)
    requires 0.0 <= a < b && dtMax > 0.0
    ensures var period := PeriodNodes(a, b, dtMax);
      && DividedAt([a] + period, 0, a, b, |period|) && NearestOrOne(|period|, (b - a) / dtMax)
  {
    PeriodIsRegular(a, b, dtMax);
  }

  lemma DividedWithin(s: seq<Time>, t: seq<Time>, u: seq<Time>, lo: nat, a: Time, b: Time, n: nat)
    requires DividedAt(t, lo, a, b, n)
    ensures DividedAt(s + t + u, |s| + lo, a, b, n)
  {
    forall i | |s| + lo <= i <= |s| + lo + n ensures (s + t + u)[i] == t[i - |s|] {}
  }

  /** The nodes of a period lie together. */
  lemma {:induction false} PeriodPlaced(begin: Time, mandatory: seq<Time>, dtMax: real, k: nat)
    returns (lo: nat, n: nat)
    requires Follows(begin, mandatory, dtMax) && k < |mandatory| && mandatory[k] != 0.0 && dtMax > 0.0
    ensures var a := if k == 0 then begin else mandatory[k - 1];
      && DividedAt([begin] + NodesAfter(begin, mandatory, dtMax), lo, a, mandatory[k], n)
      && NearestOrOne(n, (mandatory[k] - a) / dtMax)
    decreases |mandatory|
  {
    hide *;
    NodesOfFirst(begin, mandatory, dtMax);
    var end, rest := mandatory[0], mandatory[1..];
    var s, t := PeriodNodes(begin, end, dtMax), NodesAfter(end, rest, dtMax);
    if k == 0 {
      lo, n := 0, |s|;
      PeriodIsDivided(begin, end, dtMax);
      DividedWithin([], [begin] + s, t, 0, begin, end, n);
      assert [] + ([begin] + s) + t == [begin] + s + t;
    } else {
      lo, n := PeriodPlaced(end, rest, dtMax, k - 1);
      var init := EndsWith(begin, end, dtMax);
      DividedWithin(init, [end] + t, [], lo, if k == 1 then end else rest[k - 2], mandatory[k], n);
      assert init + ([end] + t) + [] == init + [end] + t == [begin] + s + t;
      lo := |init| + lo;
    }
  }

  lemma NodesOfFirst(begin: Time, mandatory: seq<Time>, dtMax: real)
    requires Follows(begin, mandatory, dtMax) && mandatory != [] && dtMax > 0.0
    ensures 0.0 <= begin <= mandatory[0] && (mandatory[0] != 0.0 ==> begin < mandatory[0])
    ensures Follows(mandatory[0], mandatory[1..], dtMax)
    ensures [begin] + NodesAfter(begin, mandatory, dtMax)
         == [begin] + PeriodNodes(begin, mandatory[0], dtMax) + NodesAfter(mandatory[0], mandatory[1..], dtMax)
  {
    FollowsTail(begin, mandatory, dtMax);
  }

  lemma EndsWith(begin: Time, end: Time, dtMax: real) returns (init: seq<Time>)
    requires 0.0 <= begin <= end && (end != 0.0 ==> begin < end) && dtMax > 0.0
    ensures [begin] + PeriodNodes(begin, end, dtMax) == init + [end]
  {
    var s := PeriodNodes(begin, end, dtMax);
    if end != 0.0 {
      PeriodSteps(begin, end, dtMax);
    } else {
      NoNodesAtZero(begin, dtMax);
    }
    hide PeriodNodes;
    init := ([begin] + s)[..|s|];
  }

  /** Between two consecutive mandatory times, counted from zero, the nodes are evenly spaced, and there are as many
      steps as the target step fits in there, to the nearest integer, or one. */
  lemma PeriodDivided(mandatory: seq<Time>, steps: nat, k: nat, g: real) returns (lo: nat, n: nat)
    requires |mandatory| > 0 && Increasing(mandatory) && mandatory[0] >= 0.0
    requires (steps > 0 || HasInterval(mandatory)) && TargetStep(mandatory, steps, g)
    requires k < |mandatory| && mandatory[k] != 0.0
    ensures var a := Previous(mandatory, k);
      && g > 0.0
      && DividedAt(SubdividedNodes(mandatory, steps), lo, a, mandatory[k], n)
      && NearestOrOne(n, (mandatory[k] - a) / g)
  {
    hide TargetStep, DividedAt, NearestOrOne, DtMax;
    DtMaxIsTarget(mandatory, steps, g);
    MandatoryFollows(mandatory, steps);
    lo, n := PeriodPlaced(0.0, mandatory, g, k);
  }

  /** A shortest period is not subdivided when no number of steps is desired. */
  lemma ShortestPeriodWhole(mandatory: seq<Time>, k: nat)
    requires |mandatory| > 0 && Increasing(mandatory) && mandatory[0] >= 0.0 && HasInterval(mandatory)
    requires k < |mandatory| && mandatory[k] != 0.0
    requires TargetStep(mandatory, 0, mandatory[k] - Previous(mandatory, k))
    ensures exists i :: 0 < i < |SubdividedNodes(mandatory, 0)| && SubdividedNodes(mandatory, 0)[i] == mandatory[k]
                        && SubdividedNodes(mandatory, 0)[i - 1] == Previous(mandatory, k)
  {
    hide TargetStep, SubdividedNodes, DtMax;
    var a := Previous(mandatory, k);
    var lo, n := PeriodDivided(mandatory, 0, k, mandatory[k] - a);
    WholePeriod(SubdividedNodes(mandatory, 0), lo, a, mandatory[k], n);
  }

  lemma WholePeriod(times: seq<Time>, lo: nat, a: Time, b: Time, n: nat)
    requires a < b && DividedAt(times, lo, a, b, n) && NearestOrOne(n, (b - a) / (b - a))
    ensures times[lo] == a && times[lo + 1] == b
  {
    CancelFactor(b - a, (b - a) / (b - a), 1.0);
    CancelFactor(b - a, 1.0, (b - a) / (b - a));
    assert times[lo] == a + 0.0 * ((b - a) / n as real);
  }

  /** The grid without additional points. */
  lemma MandatoryGrid(input: seq<Time>)
    requires |input| > 0 && NonNegative(input)
    ensures var times, m := MandatoryNodes(Retained(input)), Retained(input);
      && |times| > 0 && times[0] == 0.0 && Increasing(times)
      && (forall t :: t in times <==> t == 0.0 || t in m)
      && (PairwiseApart(times) <==> m[0] == 0.0 || m[0] >= TOLERANCE * TOLERANCE)
  {
    RetainedTimes(input);
    var m := Retained(input);
    var times := MandatoryNodes(m);
    assert m[0] in m;
    if m[0] > 0.0 {
      assert times[0] == 0.0 && times[1] == m[0];
      forall i, j | 0 <= i < j < |times| && m[0] >= TOLERANCE * TOLERANCE ensures !CloseEnough(times[i], times[j]) {
        assert times[j] == m[j - 1] >= m[0];
      }
    }
  }

  /** Nodes are pairwise not close once the steps are wide compared with the tolerance. */
  lemma WideStepsApart(times: seq<Time>, step: real)
    requires |times| > 0 && times[0] == 0.0 && Increasing(times)
    requires forall k :: 0 < k < |times| ==> times[k] - times[k - 1] >= step
    requires step >= TOLERANCE * TOLERANCE && step > TOLERANCE * times[|times| - 1]
    ensures PairwiseApart(times)
  {
    forall i, j | 0 <= i < j < |times| ensures !CloseEnough(times[i], times[j]) {
      assert times[j] - times[j - 1] >= step;
      assert times[i] <= times[j - 1];
      assert TOLERANCE * times[j] <= TOLERANCE * times[|times| - 1];
    }
  }

  // ----- node lookup -----

  /** std::lower_bound: the first position whose node is not below `t`. */
  function LowerBound(times: seq<Time>, t: Time, lo: nat, hi: nat): (r: nat)
    requires lo <= hi <= |times| && Ascending(times)
    ensures lo <= r <= hi
    ensures forall k :: lo <= k < r ==> times[k] < t
    ensures forall k :: r <= k < hi ==> t <= times[k]
    decreases hi - lo
  {
    if lo == hi then lo
    else
      var mid := lo + (hi - lo) / 2;
      if times[mid] < t then LowerBound(times, t, mid + 1, hi) else LowerBound(times, t, lo, mid)
  }

  /** The leftmost among the nodes nearest to `t`. */
  function ClosestIndex(times: seq<Time>, t: Time): (r: nat)
    requires |times| > 0 && Increasing(times)
    ensures r < |times|
    ensures forall k :: 0 <= k < |times| ==> Abs(times[r] - t) <= Abs(times[k] - t)
    ensures forall k :: 0 <= k < r ==> Abs(times[r] - t) < Abs(times[k] - t)
  {
    var result := LowerBound(times, t, 0, |times|);
    if result == 0 then 0
    else if result == |times| then |times| - 1
    else
      assert forall k :: 0 <= k < result - 1 ==> times[k] < times[result - 1];
      var dt1 := times[result] - t;
      var dt2 := t - times[result - 1];
      if dt1 < dt2 then result else result - 1
  }

  function ClosestTime(times: seq<Time>, t: Time): Time
    requires |times| > 0 && Increasing(times)
  {
    times[ClosestIndex(times, t)]
  }

  /** The nearest node if it is close to `t`; otherwise where `t` lies. The nodes reported around `t` are adjacent. */
  function Index(times: seq<Time>, t: Time): (r: Result<nat, IndexError>)
    requires |times| > 0 && Increasing(times)
    ensures r.Success? ==> r.value < |times| && CloseEnough(t, times[r.value])
    ensures r.Failure? ==> !CloseEnough(t, ClosestTime(times, t))
    ensures r.Failure? && r.error.AllNodesLater? ==> r.error.earliest == times[0] && t < times[0]
    ensures r.Failure? && r.error.AllNodesEarlier? ==> r.error.latest == times[|times| - 1] && times[|times| - 1] < t
    ensures r.Failure? && r.error.BetweenNodes? ==>
      exists j :: 0 <= j < |times| - 1 && times[j] == r.error.before < t < r.error.after == times[j + 1]
  {
    var i := ClosestIndex(times, t);
    if CloseEnough(t, times[i]) then Success(i)
    else if t < times[0] then Failure(AllNodesLater(times[0]))
    else if t > times[|times| - 1] then Failure(AllNodesEarlier(times[|times| - 1]))
    else
      var (j, k) := if t > times[i] then (i, i + 1) else (i - 1, i);
      assert times[j] < t < times[k] by {
        if t > times[i] {
          assert Abs(times[i] - t) <= Abs(times[k] - t);
        } else {
          assert Abs(times[i] - t) < Abs(times[j] - t);
        }
      }
      Failure(BetweenNodes(times[j], times[k]))
  }

  /** Every node is found at its own position. */
  lemma IndexOfNode(times: seq<Time>, i: nat)
    requires i < |times| && Increasing(times)
    ensures ClosestIndex(times, times[i]) == i
    ensures Index(times, times[i]) == Success(i)
  {
    assert Abs(times[i] - times[i]) == 0.0;
    var r := ClosestIndex(times, times[i]);
    assert Abs(times[r] - times[i]) <= 0.0;
  }

  lemma CloseNodeFound(times: seq<Time>, t: Time, r: Time)
    requires |times| > 0 && Increasing(times) && NonNegative(times)
    requires r in times && r <= t && CloseEnough(r, t)
    requires r == t || 0.0 < r
    ensures Index(times, t).Success?
    ensures r == t ==> times[Index(times, t).value] == t
  {
    var i :| 0 <= i < |times| && times[i] == r;
    if r == t {
      IndexOfNode(times, i);
    } else {
      var q := ClosestTime(times, t);
      assert Abs(q - t) <= Abs(r - t);
      assert q in times;
      NearerIsCloseEnough(t, r, q);
    }
  }

  /** Lookup never fails on a time the grid was built from, even one dropped as a duplicate, unless the time is
      positive but below the square of the tolerance and zero is listed too. */
  lemma InputTimeIndexed(input: seq<Time>, retained: seq<Time>, times: seq<Time>, t: Time)
    requires |input| > 0 && NonNegative(input) && t in input && retained == Retained(input)
    requires |times| > 0 && Increasing(times) && NonNegative(times)
    requires forall r :: r in retained ==> r in times
    requires t == 0.0 || t >= TOLERANCE * TOLERANCE || t in retained || 0.0 !in input
    ensures Index(times, t).Success?
    ensures t in retained ==> times[Index(times, t).value] == t
  {
    hide *;
    RetainedTimes(input);
    if t in retained {
      CloseNodeFound(times, t, t);
    } else {
      var r :| r in retained && r <= t && CloseEnough(r, t);
      DroppedTimeFound(input, times, t, r);
    }
  }

  lemma DroppedTimeFound(input: seq<Time>, times: seq<Time>, t: Time, r: Time)
    requires |times| > 0 && Increasing(times) && NonNegative(times)
    requires t == 0.0 || t >= TOLERANCE * TOLERANCE || 0.0 !in input
    requires r in times && r in input && r <= t && CloseEnough(r, t)
    ensures Index(times, t).Success?
  {
    hide *;
    NodesNonNegative(times, r);
    CloseToPositive(r, t);
    CloseNodeFound(times, t, r);
  }

  predicate Tiny(t: Time) {
    0.0 < t < TOLERANCE * TOLERANCE
  }

  /** A positive time that was dropped as too close to zero, while the next retained time is nearer than zero
      and not close. */
  predicate Missed(input: seq<Time>, t: Time)
    requires |input| > 0
  {
    && 0.0 in input && Tiny(t)
    && var m := Retained(input);
    && |m| > 1 && m[1] - t < t && !CloseEnough(t, m[1])
  }

  /** On the grid without additional points those are exactly the input times that are not found. */
  lemma MandatoryTimeIndexed(input: seq<Time>, t: Time)
    requires |input| > 0 && NonNegative(input) && t in input
    ensures Increasing(MandatoryNodes(Retained(input)))
    ensures Index(MandatoryNodes(Retained(input)), t).Failure? <==> Missed(input, t)
  {
    hide *;
    MandatoryGrid(input);
    RetainedTimes(input);
    var m := Retained(input);
    var times := MandatoryNodes(m);
    StartingFromZero(times);
    MissedCases(input, t);
    if 0.0 in input && Tiny(t) {
      ZeroRetained(input);
      TinyTimeIndexed(m, t);
    } else {
      InputTimeIndexed(input, m, times, t);
    }
  }

  lemma MissedCases(input: seq<Time>, t: Time)
    requires |input| > 0 && NonNegative(input) && t in input
    ensures !(0.0 in input && Tiny(t)) ==>
      !Missed(input, t) && (t == 0.0 || t >= TOLERANCE * TOLERANCE || 0.0 !in input)
    ensures 0.0 in input && Tiny(t) ==>
      var m := Retained(input);
      Missed(input, t) == (|m| > 1 && m[1] - t < t && !CloseEnough(t, m[1]))
  {
  }

  lemma NextApart(s: seq<Time>)
    requires PairwiseApart(s)
    ensures |s| > 1 ==> !CloseEnough(s[0], s[1])
  {
  }

  lemma StartingFromZero(times: seq<Time>)
    requires |times| > 0 && times[0] >= 0.0 && Increasing(times)
    ensures NonNegative(times)
  {
  }

  lemma ZeroRetained(input: seq<Time>)
    requires |input| > 0 && NonNegative(input) && 0.0 in input
    ensures var m := Retained(input);
      m[0] == 0.0 && MandatoryNodes(m) == m && (|m| > 1 ==> !CloseEnough(m[0], m[1]))
  {
    hide *;
    NegativeTimesRejected(input);
    var r := RetainedBelow(input, 0.0);
    SmallestRetained(Retained(input), r);
    NoZeroAdded(Retained(input));
    NextApart(Retained(input));
  }

  lemma NoZeroAdded(mandatory: seq<Time>)
    requires |mandatory| > 0 && mandatory[0] <= 0.0
    ensures MandatoryNodes(mandatory) == mandatory
  {
  }

  lemma RetainedBelow(input: seq<Time>, t: Time) returns (r: Time)
    requires |input| > 0 && NonNegative(input) && t in input
    ensures r in Retained(input) && r <= t && CloseEnough(r, t)
    ensures Increasing(Retained(input)) && PairwiseApart(Retained(input))
  {
    hide *;
    RetainedTimes(input);
    r :| r in Retained(input) && r <= t && CloseEnough(r, t);
  }

  lemma SmallestRetained(s: seq<Time>, r: Time)
    requires Increasing(s) && r in s
    ensures s[0] <= r
  {
  }

  /** Near zero the choice is between the first two nodes. */
  lemma TinyTimeIndexed(times: seq<Time>, t: Time)
    requires |times| > 0 && times[0] == 0.0 && Increasing(times) && Tiny(t)
    requires |times| > 1 ==> !CloseEnough(times[0], times[1])
    ensures Index(times, t).Failure? <==> |times| > 1 && times[1] - t < t && !CloseEnough(t, times[1])
  {
    assert |times| > 1 ==> times[1] > t;
    assert forall k :: 1 < k < |times| ==> Abs(times[k] - t) > Abs(times[1] - t);
    var r := ClosestIndex(times, t);
    assert Index(times, t).Failure? <==> !CloseEnough(t, times[r]);
    hide Index, ClosestIndex;
    assert r <= 1;
    assert CloseEnough(t, times[0]);
  }

  lemma NodesNonNegative(times: seq<Time>, r: Time)
    requires NonNegative(times) && r in times
    ensures r >= 0.0
  {
  }

  lemma CloseToPositive(r: Time, t: Time)
    requires CloseEnough(r, t) && 0.0 <= r <= t
    ensures t == 0.0 || t >= TOLERANCE * TOLERANCE ==> r == t || r > 0.0
  {
  }

  /** No two different times are close; the same time may be listed more than once. */
  predicate DifferentTimesApart(input: seq<Time>) {
    forall x, y :: x in input && y in input && x != y ==> !CloseEnough(x, y)
  }

  /** Every input time is retained exactly when no two different ones are close. */
  lemma EveryTimeRetained(input: seq<Time>)
    requires |input| > 0 && NonNegative(input)
    ensures (forall t :: t in input ==> t in Retained(input)) <==> DifferentTimesApart(input)
  {
    hide *;
    RetainedTimes(input);
    var retained := Retained(input);
    if forall t :: t in input ==> t in retained {
      MembersApart(retained, input);
    }
    if DifferentTimesApart(input) {
      forall t | t in input ensures t in retained {
        var r :| r in retained && r <= t && CloseEnough(r, t);
        CloseMembers(input, r, t);
      }
    }
  }

  lemma MembersApart(s: seq<Time>, input: seq<Time>)
    requires PairwiseApart(s) && forall t :: t in input ==> t in s
    ensures DifferentTimesApart(input)
  {
    hide CloseEnough, PairwiseApart;
    forall x, y | x in input && y in input && x != y ensures !CloseEnough(x, y) {
      ApartMembers(s, x, y);
    }
  }

  lemma CloseMembers(s: seq<Time>, x: Time, y: Time)
    requires DifferentTimesApart(s) && x in s && y in s && CloseEnough(x, y)
    ensures x == y
  {
  }

  lemma ApartMembers(s: seq<Time>, x: Time, y: Time)
    requires PairwiseApart(s) && x in s && y in s && x != y
    ensures !CloseEnough(x, y)
  {
    var i :| 0 <= i < |s| && s[i] == x;
    var j :| 0 <= j < |s| && s[j] == y;
    Symmetric(x, y);
  }

  /** Nothing is dropped for being close to zero: no two different times are close, zero is not listed, or no positive
      time is below the square of the tolerance. */
  predicate ClearOfZero(input: seq<Time>) {
    DifferentTimesApart(input) || 0.0 !in input || forall t :: t in input ==> !Tiny(t)
  }

  /** Then every input time is found on every grid that holds the retained ones. */
  lemma ClearTimesIndexed(input: seq<Time>, times: seq<Time>, t: Time)
    requires |input| > 0 && NonNegative(input) && ClearOfZero(input) && t in input
    requires |times| > 0 && Increasing(times) && NonNegative(times)
    requires forall r :: r in Retained(input) ==> r in times
    ensures Index(times, t).Success?
  {
    hide *;
    EveryTimeRetained(input);
    ClearCases(input, t);
    InputTimeIndexed(input, Retained(input), times, t);
  }

  lemma ClearCases(input: seq<Time>, t: Time)
    requires NonNegative(input) && ClearOfZero(input) && t in input
    ensures DifferentTimesApart(input) || 0.0 !in input || t == 0.0 || t >= TOLERANCE * TOLERANCE
  {
  }

  /** All input times are nodes of a grid whose nodes are pairwise not close exactly when no two different ones are
      close. */
  lemma EveryTimeIsNode(input: seq<Time>, times: seq<Time>)
    requires |input| > 0 && NonNegative(input) && PairwiseApart(times)
    requires forall r :: r in Retained(input) ==> r in times
    ensures (forall t :: t in input ==> t in times) <==> DifferentTimesApart(input)
  {
    hide *;
    EveryTimeRetained(input);
    if forall t :: t in input ==> t in times {
      MembersApart(times, input);
    }
  }

  /** Without additional points the nodes need not be apart: zero is the only one that may be added. */
  lemma MandatoryGridHoldsInput(input: seq<Time>)
    requires |input| > 0 && NonNegative(input)
    ensures (forall t :: t in input ==> t in MandatoryNodes(Retained(input))) <==> DifferentTimesApart(input)
  {
    hide *;
    EveryTimeRetained(input);
    MandatoryGrid(input);
    if 0.0 in input {
      ZeroRetained(input);
    }
  }

  /** With additional points, different times that are not close are still enough, and necessary where the nodes are
      pairwise not close. */
  lemma SubdividedGridHoldsInput(input: seq<Time>, steps: nat)
    requires |input| > 0 && NonNegative(input) && (steps > 0 || HasInterval(Retained(input)))
    ensures Increasing(Retained(input)) && Retained(input)[0] >= 0.0
    ensures DifferentTimesApart(input) ==> forall t :: t in input ==> t in SubdividedNodes(Retained(input), steps)
    ensures PairwiseApart(SubdividedNodes(Retained(input), steps)) ==>
      ((forall t :: t in input ==> t in SubdividedNodes(Retained(input), steps)) <==> DifferentTimesApart(input))
  {
    hide *;
    EveryTimeRetained(input);
    RetainedTimes(input);
    NegativeTimesRejected(input);
    var times := SubdividedNodes(Retained(input), steps);
    SubdividedGrid(Retained(input), steps);
    if PairwiseApart(times) {
      EveryTimeIsNode(input, times);
    }
  }

  /** A mandatory time that is not a node: it is half the tolerance above another one. */
  lemma NearDuplicateDropped()
    ensures var input := [1.0, 1.0 + TOLERANCE / 2.0];
      NonNegative(input) && input[1] !in Retained(input) && input[1] !in MandatoryNodes(Retained(input))
  {
    var t := 1.0 + TOLERANCE / 2.0;
    var input := [1.0, t];
    SortOfTwo(1.0, t);
    assert CloseEnough(1.0, t);
    assert input[1..] == [t] && [t][1..] == [];
    hide Sort, CloseEnough;
    assert UniqueAfter(1.0, [t]) == UniqueAfter(1.0, []);
    assert Retained(input) == [1.0] + UniqueAfter(1.0, [t]);
  }

  lemma SortOfTwo(x: Time, y: Time)
    requires x <= y
    ensures Sort([x, y]) == [x, y]
  {
    assert [x, y][1..] == [y] && [y][1..] == [];
    assert Sort([y]) == Insert(y, Sort([]));
  }

  /** Three times on a scale on which the closeness to zero decides. */
  function TinyTimes(x: real): seq<Time> {
    [0.0, Times(x, TOLERANCE * TOLERANCE), TOLERANCE * TOLERANCE]
  }

  lemma TinyTimesRetained(x: real)
    requires 0.0 < x < 1.0
    ensures NonNegative(TinyTimes(x)) && 0.0 < TinyTimes(x)[1] < TOLERANCE * TOLERANCE
    ensures Retained(TinyTimes(x)) == [0.0, TOLERANCE * TOLERANCE]
  {
    var square := TOLERANCE * TOLERANCE;
    ScaleOrder(square, 0.0, x);
    ScaleOrder(square, x, 1.0);
    var t := Times(x, square);
    SortOfThree(0.0, t, square);
    assert CloseEnough(0.0, t) && !CloseEnough(0.0, square);
    assert TinyTimes(x)[1..] == [t, square] && [t, square][1..] == [square] && [square][1..] == [];
    hide Sort, CloseEnough;
    assert UniqueAfter(0.0, [square]) == [square] + UniqueAfter(square, []);
    assert UniqueAfter(0.0, [t, square]) == UniqueAfter(0.0, [square]);
    assert Retained(TinyTimes(x)) == [0.0] + UniqueAfter(0.0, [t, square]);
  }

  lemma SortOfThree(x: Time, y: Time, z: Time)
    requires x <= y <= z
    ensures Sort([x, y, z]) == [x, y, z]
  {
    SortOfTwo(y, z);
    assert [x, y, z][1..] == [y, z];
  }

  /** A time that is dropped and put back: the subdivision of the period makes it a node. */
  lemma DroppedTimeIsNode()
    ensures var input := TinyTimes(0.5);
      && NonNegative(input) && !DifferentTimesApart(input) && input[1] !in Retained(input)
      && Retained(input) == [0.0, TOLERANCE * TOLERANCE]
      && Increasing(Retained(input)) && input[1] in SubdividedNodes(Retained(input), 2)
  {
    var input, square := TinyTimes(0.5), TOLERANCE * TOLERANCE;
    TinyTimesRetained(0.5);
    var m := [0.0, square];
    assert CloseEnough(input[0], input[1]);
    hide Retained;
    MandatoryFollows(m, 2);
    assert m[1..] == [square] && [square][1..] == [];
    var dtMax := square / 2.0;
    var period := PeriodNodes(0.0, square, dtMax);
    assert StepCount(square, dtMax) == 2;
    assert period[0] == input[1];
    assert NodesAfter(0.0, m, dtMax) == PeriodNodes(0.0, 0.0, dtMax) + NodesAfter(0.0, [square], dtMax);
    assert NodesAfter(0.0, [square], dtMax) == period + NodesAfter(square, [], dtMax);
    assert SubdividedNodes(m, 2)[1] == period[0];
  }

  /** A mandatory time for which lookup fails on the grid without additional points. */
  lemma MandatoryTimeNotFound()
    ensures var input := TinyTimes(0.9);
      && NonNegative(input) && Missed(input, input[1])
      && Increasing(MandatoryNodes(Retained(input))) && Index(MandatoryNodes(Retained(input)), input[1]).Failure?
  {
    var input := TinyTimes(0.9);
    TinyTimesRetained(0.9);
    MandatoryTimeIndexed(input, input[1]);
  }

  // ----- the class -----

  class TimeGrid {
    var times: seq<Time>
    var dt: seq<Time>
    var mandatoryTimes: seq<Time>

    constructor ()
      ensures times == [] && dt == [] && mandatoryTimes == []
    {
      times, dt, mandatoryTimes := [], [], [];
    }

    /** Regularly spaced grid. */
    static method Uniform(end: Time, steps: nat) returns (r: Result<TimeGrid, GridError>)
      requires steps > 0
      ensures r.Failure? <==> end <= 0.0
      ensures r.Success? ==>
        && fresh(r.value)
        && r.value.times == UniformNodes(end, steps)
        && r.value.dt == seq(steps, _ => end / steps as real)
        && r.value.mandatoryTimes == [end]
    {
      if end <= 0.0 {
        return Failure(NegativeTimes);
      }
      var g := new TimeGrid();
      var dt := end / steps as real;
      for i := 0 to steps + 1
        invariant fresh(g)
        invariant g.times == UniformNodes(end, steps)[..i]
      {
        assert UniformNodes(end, steps)[i] == dt * i as real;
        g.times := g.times + [dt * i as real];
      }
      g.mandatoryTimes := [end];
      g.dt := seq(steps, _ => dt);
      return Success(g);
    }

    /** Grid of the given times, with no additional points. */
    static method FromTimes(input: seq<Time>) returns (r: Result<TimeGrid, GridError>)
      requires |input| > 0
      ensures r.Failure? <==> !NonNegative(input)
      ensures r.Success? ==>
        && fresh(r.value)
        && r.value.mandatoryTimes == Retained(input)
        && r.value.times == MandatoryNodes(Retained(input))
        && r.value.dt == Differences(r.value.times)
    {
      NegativeTimesRejected(input);
      hide Retained;
      var g := new TimeGrid();
      g.mandatoryTimes := Retained(input);
      if g.mandatoryTimes[0] < 0.0 {
        return Failure(NegativeTimes);
      }
      if g.mandatoryTimes[0] > 0.0 {
        g.times := g.times + [0.0];
      }
      g.times := g.times + g.mandatoryTimes;
      hide Differences;
      g.dt := Differences(g.times);
      return Success(g);
    }

    /** Grid of the given times, subdivided towards a number of steps. */
    static method WithSteps(input: seq<Time>, steps: nat) returns (r: Result<TimeGrid, GridError>)
      requires |input| > 0
      requires steps > 0 || HasInterval(Retained(input))
      ensures r.Failure? <==> !NonNegative(input)
      ensures r.Success? ==>
        && fresh(r.value)
        && var m := Retained(input);
        && Increasing(m) && m[0] >= 0.0
        && r.value.mandatoryTimes == m
        && r.value.times == SubdividedNodes(m, steps)
        && r.value.dt == Differences(r.value.times)
    {
      NegativeTimesRejected(input);
      hide Retained;
      var g := new TimeGrid();
      g.mandatoryTimes := Retained(input);
      if g.mandatoryTimes[0] < 0.0 {
        return Failure(NegativeTimes);
      }
      RetainedTimes(input);
      g.Subdivide(steps);
      return Success(g);
    }

    /** The part of the constructor that follows the choice of mandatory times. */
    method Subdivide(steps: nat)
      requires times == [] && |mandatoryTimes| > 0 && Increasing(mandatoryTimes) && mandatoryTimes[0] >= 0.0
      requires steps > 0 || HasInterval(mandatoryTimes)
      modifies this`times, this`dt
      ensures times == SubdividedNodes(mandatoryTimes, steps)
      ensures dt == Differences(times)
    {
      var m := mandatoryTimes;
      MandatoryFollows(m, steps);
      var dtMax := if steps == 0 then Smallest(Gaps(m)) else m[|m| - 1] / steps as real;
      FillPeriods(dtMax);
      dt := Differences(times);
    }

    /** The loop over the mandatory times. */
    method FillPeriods(dtMax: real)
      requires times == [] && |mandatoryTimes| > 0 && Follows(0.0, mandatoryTimes, dtMax)
      modifies this`times
      ensures times == [0.0] + NodesAfter(0.0, mandatoryTimes, dtMax)
    {
      hide *;
      var m := mandatoryTimes;
      var periodBegin := 0.0;
      times := [periodBegin];
      ghost var all := [0.0] + NodesAfter(0.0, m, dtMax);
      assert m[0..] == m;
      NoNodesLeft(dtMax);
      for t := 0 to |m|
        invariant Follows(periodBegin, m[t..], dtMax)
        invariant times + NodesAfter(periodBegin, m[t..], dtMax) == all
      {
        NodesUnroll(times, periodBegin, m, t, dtMax);
        var periodEnd := m[t];
        if periodEnd != 0.0 {
          AppendPeriod(periodBegin, periodEnd, dtMax);
        } else {
          NoNodesAtZero(periodBegin, dtMax);
        }
        periodBegin := periodEnd;
      }
      assert m[|m|..] == [];
    }

    /** One round of the constructor's loop: a period is cut into equal steps. */
    method AppendPeriod(periodBegin: Time, periodEnd: Time, dtMax: real)
      requires 0.0 <= periodBegin < periodEnd && dtMax > 0.0
      modifies this`times
      ensures times == old(times) + PeriodNodes(periodBegin, periodEnd, dtMax)
    {
      var nSteps := ((periodEnd - periodBegin) / dtMax + 0.5).Floor;
      nSteps := if nSteps != 0 then nSteps else 1;
      var dt := (periodEnd - periodBegin) / nSteps as real;
      ghost var period := PeriodNodes(periodBegin, periodEnd, dtMax);
      for n := 1 to nSteps + 1
        invariant times == old(times) + period[..n - 1]
      {
        assert period[n - 1] == periodBegin + n as real * dt;
        times := times + [periodBegin + n as real * dt];
      }
    }
  }
}
