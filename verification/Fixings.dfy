/** Historical fixings: batches merged into a store that inserts on reading
    (ql/index.hpp, ql/index.cpp, ql/timeseries.hpp). */
module Fixings {
  import opened Comparison
  import opened Results

  type Date = int
  type Series = map<Date, real>

  /** Null<Real>(): the largest single-precision number stands for a missing value. */
  function Null(): real {
    340282346638528859811704183484516925440.0
  }

  /** No value of ordinary size is taken for a missing one. */
  lemma OrdinaryValuesCount(x: real)
    requires Abs(x) <= 1000000000000000000000000000000.0
    ensures x != Null()
    ensures Null() == (2.0 - 1.0 / 8388608.0) * 170141183460469231731687303715884105728.0
  {
  }

  /** The const lookup of a time series. */
  function Lookup(h: Series, d: Date): real {
    if d in h then h[d] else Null()
  }

  /** The non-const lookup inserts a null value for an unknown date. */
  function Touched(h: Series, d: Date): Series {
    if d in h then h else h[d := Null()]
  }

  datatype FixingError =
    | NativeFixingsNotAllowed
    | InvalidFixing(date: Date, value: real)
    | DuplicatedFixing(date: Date, value: real, stored: real)

  // ----- what a batch leaves behind, date by date -----

  /** The first non-null value supplied for a date, null if there is none. */
  function FirstValue(dates: seq<Date>, values: seq<real>, d: Date): real
    requires |dates| == |values|
  {
    if dates == [] then Null()
    else
      var n := |dates| - 1;
      var earlier := FirstValue(dates[..n], values[..n], d);
      if earlier != Null() || dates[n] != d then earlier else values[n]
  }

  /** The last value supplied for a date, `otherwise` if there is none. */
  function LastValue(dates: seq<Date>, values: seq<real>, d: Date, otherwise: real): real
    requires |dates| == |values|
  {
    if dates == [] then otherwise
    else
      var n := |dates| - 1;
      if dates[n] == d then values[n] else LastValue(dates[..n], values[..n], d, otherwise)
  }

  /** The value a date has after the batch. */
  function Survivor(h: Series, dates: seq<Date>, values: seq<real>, valid: Date -> bool, force: bool, d: Date): real
    requires |dates| == |values|
  {
    var stored := Lookup(h, d);
    if !valid(d) then stored
    else if force then LastValue(dates, values, d, stored)
    else if stored != Null() then stored
    else FirstValue(dates, values, d)
  }

  function Merged(h: Series, dates: seq<Date>, values: seq<real>, valid: Date -> bool, force: bool): Series
    requires |dates| == |values|
  {
    map d | d in h.Keys + (set e | e in dates) :: Survivor(h, dates, values, valid, force, d)
  }

  /** Entry `i` meets a stored value that it may not replace and is not close to. */
  predicate Conflicts(h: Series, dates: seq<Date>, values: seq<real>, valid: Date -> bool, force: bool, i: nat)
    requires |dates| == |values| && i < |dates|
  {
    var current := Survivor(h, dates[..i], values[..i], valid, force, dates[i]);
    valid(dates[i]) && !force && current != Null() && !Close(current, values[i])
  }

  /** The position of the last entry with an invalid date. */
  function LastInvalid(dates: seq<Date>, valid: Date -> bool, n: nat): (r: Option<nat>)
    requires n <= |dates|
    ensures r.Some? ==> r.value < n && !valid(dates[r.value]) && forall k :: r.value < k < n ==> valid(dates[k])
    ensures r.None? ==> forall k :: 0 <= k < n ==> valid(dates[k])
  {
    if n == 0 then None
    else if !valid(dates[n - 1]) then Some(n - 1)
    else LastInvalid(dates, valid, n - 1)
  }

  /** The position of the last conflicting entry. */
  function LastConflict(h: Series, dates: seq<Date>, values: seq<real>, valid: Date -> bool, force: bool,
                        n: nat): (r: Option<nat>)
    requires |dates| == |values| && n <= |dates|
    ensures r.Some? ==> r.value < n && Conflicts(h, dates, values, valid, force, r.value)
    ensures r.None? ==> forall k :: 0 <= k < n ==> !Conflicts(h, dates, values, valid, force, k)
  {
    if n == 0 then None
    else if Conflicts(h, dates, values, valid, force, n - 1) then Some(n - 1)
    else LastConflict(h, dates, values, valid, force, n - 1)
  }

  /** What the caller is told: the last invalid fixing if there is one, else the last conflicting one. */
  function Outcome(h: Series, dates: seq<Date>, values: seq<real>, valid: Date -> bool, force: bool): Result<(),
                   FixingError>
    requires |dates| == |values|
  {
    match LastInvalid(dates, valid, |dates|)
    case Some(i) => Failure(InvalidFixing(dates[i], values[i]))
    case None =>
      match LastConflict(h, dates, values, valid, force, |dates|)
      case Some(i) =>
        Failure(DuplicatedFixing(dates[i], values[i], Lookup(Merged(h, dates, values, valid, force), dates[i])))
      case None => Success(())
  }

  lemma NothingMerged(h: Series, dates: seq<Date>, values: seq<real>, valid: Date -> bool, force: bool)
    requires |dates| == |values|
    ensures Merged(h, dates[..0], values[..0], valid, force) == h
    ensures LastInvalid(dates, valid, 0) == None && LastConflict(h, dates, values, valid, force, 0) == None
  {
    assert dates[..0] == [] && values[..0] == [];
  }

  /** One more entry becomes the last invalid or the last conflicting one, or neither. */
  lemma LastStep(h: Series, dates: seq<Date>, values: seq<real>, valid: Date -> bool, force: bool, i: nat)
    requires |dates| == |values| && i < |dates|
    ensures LastInvalid(dates, valid, i + 1) == if !valid(dates[i]) then Some(i) else LastInvalid(dates, valid, i)
    ensures var current := Lookup(Merged(h, dates[..i], values[..i], valid, force), dates[i]);
      LastConflict(h, dates, values, valid, force, i + 1) ==
        if valid(dates[i]) && !force && current != Null() && !Close(current, values[i]) then Some(i)
        else LastConflict(h, dates, values, valid, force, i)
  {
    NotSupplied(h, dates[..i], values[..i], valid, force, dates[i]);
    hide Survivor, Merged, Lookup, Close, Null;
  }

  lemma OutcomeCases(h: Series, dates: seq<Date>, values: seq<real>, valid: Date -> bool, force: bool)
    requires |dates| == |values|
    ensures var r := Outcome(h, dates, values, valid, force);
      match LastInvalid(dates, valid, |dates|)
      case Some(i) => r == Failure(InvalidFixing(dates[i], values[i]))
      case None =>
        match LastConflict(h, dates, values, valid, force, |dates|)
        case Some(i) =>
          r == Failure(DuplicatedFixing(dates[i], values[i], Lookup(Merged(h, dates, values, valid, force), dates[i])))
        case None => r == Success(())
  {
  }

  /** Overwriting is never a conflict, and neither is an invalid fixing nor one for a date without a value. */
  lemma NoConflict(h: Series, dates: seq<Date>, values: seq<real>, valid: Date -> bool, force: bool, i: nat)
    requires |dates| == |values| && i < |dates|
    requires force || !valid(dates[i]) || (dates[i] !in h && dates[i] !in dates[..i])
    ensures !Conflicts(h, dates, values, valid, force, i)
  {
    NotSupplied(h, dates[..i], values[..i], valid, force, dates[i]);
  }

  /** A fixing for a date that had a value before, and none in the batch, conflicts exactly when it is not close
      to it. */
  lemma ConflictWithStored(h: Series, dates: seq<Date>, values: seq<real>, valid: Date -> bool, i: nat)
    requires |dates| == |values| && i < |dates| && valid(dates[i]) && dates[i] !in dates[..i]
    requires dates[i] in h && h[dates[i]] != Null()
    ensures Conflicts(h, dates, values, valid, false, i) <==> !Close(h[dates[i]], values[i])
  {
    NotSupplied(h, dates[..i], values[..i], valid, false, dates[i]);
  }

  lemma PrefixOfPrefix<T>(s: seq<T>, i: nat, n: nat)
    requires i <= n <= |s|
    ensures s[..n][..i] == s[..i]
  {
  }

  /** One entry changes the survivor of its own date only. */
  lemma SurvivorStep(h: Series, dates: seq<Date>, values: seq<real>, valid: Date -> bool, force: bool, i: nat, d: Date)
    requires |dates| == |values| && i < |dates|
    ensures var before := Survivor(h, dates[..i], values[..i], valid, force, d);
      Survivor(h, dates[..i + 1], values[..i + 1], valid, force, d) ==
        if d == dates[i] && valid(d) && (force || before == Null()) then values[i] else before
  {
    PrefixOfPrefix(dates, i, i + 1);
    PrefixOfPrefix(values, i, i + 1);
  }

  lemma MergedStep(h: Series, dates: seq<Date>, values: seq<real>, valid: Date -> bool, force: bool, i: nat)
    requires |dates| == |values| && i < |dates|
    ensures var before := Merged(h, dates[..i], values[..i], valid, force);
      var d := dates[i];
      Merged(h, dates[..i + 1], values[..i + 1], valid, force) ==
        if valid(d) && (force || Lookup(before, d) == Null()) then before[d := values[i]] else Touched(before, d)
  {
    var before := Merged(h, dates[..i], values[..i], valid, force);
    var after := Merged(h, dates[..i + 1], values[..i + 1], valid, force);
    var d := dates[i];
    assert dates[..i + 1] == dates[..i] + [d];
    assert after.Keys == before.Keys + {d};
    NotSupplied(h, dates[..i], values[..i], valid, force, d);
    forall e | e in after.Keys
      ensures after[e] == Survivor(h, dates[..i + 1], values[..i + 1], valid, force, e)
      ensures e in before ==> before[e] == Survivor(h, dates[..i], values[..i], valid, force, e)
    {
    }
    forall e | e in after.Keys
      ensures after[e]
           == if e == d && valid(d) && (force || Lookup(before, d) == Null()) then values[i] else Lookup(before, e)
    {
      SurvivorStep(h, dates, values, valid, force, i, e);
    }
  }

  /** A date outside the batch keeps its lookup. */
  lemma {:induction false} NotSupplied(h: Series, dates: seq<Date>, values: seq<real>, valid: Date -> bool,
                                       force: bool, d: Date)
    requires |dates| == |values|
    ensures d !in dates ==> Survivor(h, dates, values, valid, force, d) == Lookup(h, d)
    ensures Lookup(Merged(h, dates, values, valid, force), d) == Survivor(h, dates, values, valid, force, d)
    decreases |dates|
  {
    if dates != [] && d !in dates {
      var n := |dates| - 1;
      NotSupplied(h, dates[..n], values[..n], valid, force, d);
    }
  }

  // ----- what a batch means as a whole -----

  /** The key set grows by exactly the supplied dates, and other dates keep their lookup. */
  lemma MergeTouchesSuppliedDates(h: Series, dates: seq<Date>, values: seq<real>, valid: Date -> bool, force: bool)
    requires |dates| == |values|
    ensures var r := Merged(h, dates, values, valid, force);
      && r.Keys == h.Keys + set d | d in dates
      && forall d :: d !in dates ==> Lookup(r, d) == Lookup(h, d) && (d in r <==> d in h)
  {
    var r := Merged(h, dates, values, valid, force);
    forall d | d !in dates ensures Lookup(r, d) == Lookup(h, d) {
      NotSupplied(h, dates, values, valid, force, d);
    }
  }

  /** Without overwriting, a stored value survives every batch. */
  lemma StoredValuesSurvive(h: Series, dates: seq<Date>, values: seq<real>, valid: Date -> bool, d: Date)
    requires |dates| == |values| && Lookup(h, d) != Null()
    ensures Lookup(Merged(h, dates, values, valid, false), d) == Lookup(h, d)
  {
    NotSupplied(h, dates, values, valid, false, d);
  }

  lemma {:induction false} FirstValueAppend(dates: seq<Date>, values: seq<real>, dates': seq<Date>,
                                            values': seq<real>, d: Date)
    requires |dates| == |values| && |dates'| == |values'|
    ensures FirstValue(dates + dates', values + values', d)
         == if FirstValue(dates, values, d) != Null() then FirstValue(dates, values, d)
            else FirstValue(dates', values', d)
    decreases |dates'|
  {
    if dates' == [] {
      assert dates + dates' == dates && values + values' == values;
    } else {
      var n := |dates'| - 1;
      FirstValueAppend(dates, values, dates'[..n], values'[..n], d);
      assert (dates + dates')[..|dates| + n] == dates + dates'[..n];
      assert (values + values')[..|values| + n] == values + values'[..n];
    }
  }

  lemma {:induction false} LastValueAppend(dates: seq<Date>, values: seq<real>, dates': seq<Date>, values': seq<real>,
                                           d: Date, otherwise: real)
    requires |dates| == |values| && |dates'| == |values'|
    ensures LastValue(dates + dates', values + values', d, otherwise)
         == LastValue(dates', values', d, LastValue(dates, values, d, otherwise))
    decreases |dates'|
  {
    if dates' == [] {
      assert dates + dates' == dates && values + values' == values;
    } else {
      var n := |dates'| - 1;
      LastValueAppend(dates, values, dates'[..n], values'[..n], d, otherwise);
      assert (dates + dates')[..|dates| + n] == dates + dates'[..n];
      assert (values + values')[..|values| + n] == values + values'[..n];
    }
  }

  /** Two batches in a row leave what their concatenation leaves. */
  lemma MergeAppend(h: Series, dates: seq<Date>, values: seq<real>, dates': seq<Date>, values': seq<real>,
                    valid: Date -> bool, force: bool)
    requires |dates| == |values| && |dates'| == |values'|
    ensures Merged(Merged(h, dates, values, valid, force), dates', values', valid, force)
         == Merged(h, dates + dates', values + values', valid, force)
  {
    var middle := Merged(h, dates, values, valid, force);
    var twice := Merged(middle, dates', values', valid, force);
    var once := Merged(h, dates + dates', values + values', valid, force);
    assert twice.Keys == once.Keys;
    forall d | d in once ensures twice[d] == once[d] {
      NotSupplied(h, dates, values, valid, force, d);
      FirstValueAppend(dates, values, dates', values', d);
      LastValueAppend(dates, values, dates', values', d, Lookup(h, d));
    }
  }

  /** The survivor found at an entry is the final survivor once it is not null. */
  lemma {:induction false} SurvivorSettles(h: Series, dates: seq<Date>, values: seq<real>, valid: Date -> bool,
                                           i: nat, n: nat, d: Date)
    requires |dates| == |values| && i <= n <= |dates|
    requires Survivor(h, dates[..i], values[..i], valid, false, d) != Null()
    ensures Survivor(h, dates[..n], values[..n], valid, false, d)
         == Survivor(h, dates[..i], values[..i], valid, false, d)
    decreases n - i
  {
    if i < n {
      SurvivorStep(h, dates, values, valid, false, i, d);
      SurvivorSettles(h, dates, values, valid, i + 1, n, d);
    }
  }

  /** In a batch of non-null values that raised no error, every value is close to what its date ends up with. */
  lemma AcceptedValueIsClose(h: Series, dates: seq<Date>, values: seq<real>, valid: Date -> bool, i: nat)
    requires |dates| == |values| && i < |dates| && values[i] != Null()
    requires Outcome(h, dates, values, valid, false).Success?
    ensures valid(dates[i])
    ensures var kept := Survivor(h, dates, values, valid, false, dates[i]);
      kept != Null() && Close(kept, values[i])
  {
    var d := dates[i];
    assert !Conflicts(h, dates, values, valid, false, i);
    SurvivorStep(h, dates, values, valid, false, i, d);
    SurvivorSettles(h, dates, values, valid, i + 1, |dates|, d);
    assert dates[..|dates|] == dates && values[..|dates|] == values;
    if Survivor(h, dates[..i], values[..i], valid, false, d) != Null() {
      SurvivorSettles(h, dates, values, valid, i, i + 1, d);
    }
  }

  /** Adding an accepted batch of non-null values again changes nothing and raises no error, even when it repeats
      a date with values that are merely close. */
  lemma ReaddingIsNoOp(h: Series, dates: seq<Date>, values: seq<real>, valid: Date -> bool)
    requires |dates| == |values| && forall i :: 0 <= i < |values| ==> values[i] != Null()
    requires Outcome(h, dates, values, valid, false).Success?
    ensures var r := Merged(h, dates, values, valid, false);
      Merged(r, dates, values, valid, false) == r && Outcome(r, dates, values, valid, false).Success?
  {
    var r := Merged(h, dates, values, valid, false);
    forall d | d in r ensures Survivor(r, dates, values, valid, false, d) == r[d] {
      NotSupplied(h, dates, values, valid, false, d);
      if d in dates {
        var i :| 0 <= i < |dates| && dates[i] == d;
        AcceptedValueIsClose(h, dates, values, valid, i);
      } else {
        NotSupplied(r, dates, values, valid, false, d);
      }
    }
    forall i | 0 <= i < |dates| ensures valid(dates[i]) && !Conflicts(r, dates, values, valid, false, i) {
      NotSupplied(h, dates, values, valid, false, dates[i]);
      AcceptedValueIsClose(h, dates, values, valid, i);
    }
  }

  // ----- the store -----

  class IndexManager {
    var data: map<string, Series>

    constructor ()
      ensures data == map[]
    {
      data := map[];
    }

    function History(tag: string): (h: Series)
      reads this
      ensures tag in data ==> h == data[tag]
      ensures tag !in data ==> h == map[]
    {
      if tag in data then data[tag] else map[]
    }

    method SetHistory(tag: string, history: Series)
      modifies this
      ensures data == old(data)[tag := history]
    {
      data := data[tag := history];
    }
  }

  class Index {
    const tag: string
    const valid: Date -> bool
    const allowsNativeFixings: bool

    constructor (tag: string, valid: Date -> bool, allowsNativeFixings: bool)
      ensures this.tag == tag && this.valid == valid && this.allowsNativeFixings == allowsNativeFixings
    {
      this.tag, this.valid, this.allowsNativeFixings := tag, valid, allowsNativeFixings;
    }

    /** Merges a batch of fixings into the history. The merge is committed before any error is raised. */
    method AddFixings(manager: IndexManager, dates: seq<Date>, values: seq<real>, forceOverwrite: bool)
      returns (r: Result<(), FixingError>)
      requires |dates| == |values|
      modifies manager
      ensures !allowsNativeFixings ==> r == Failure(NativeFixingsNotAllowed) && manager.data == old(manager.data)
      ensures allowsNativeFixings ==>
        && manager.data
           == old(manager.data)[tag := Merged(old(manager.History(tag)), dates, values, valid, forceOverwrite)]
        && r == Outcome(old(manager.History(tag)), dates, values, valid, forceOverwrite)
        && (match LastInvalid(dates, valid, |dates|)
            case Some(i) => r == Failure(InvalidFixing(dates[i], values[i]))
            case None =>
              match LastConflict(old(manager.History(tag)), dates, values, valid, forceOverwrite, |dates|)
              case Some(i) =>
                r == Failure(DuplicatedFixing(dates[i], values[i], Lookup(manager.data[tag], dates[i])))
              case None => r == Success(()))
    {
      if !allowsNativeFixings {
        return Failure(NativeFixingsNotAllowed);
      }
      hide Outcome, Merged, Lookup, LastInvalid, LastConflict;
      OutcomeCases(manager.History(tag), dates, values, valid, forceOverwrite);
      var h, invalid, duplicated := MergeEntries(manager.History(tag), dates, values, forceOverwrite);
      manager.SetHistory(tag, h);
      if invalid.Some? {
        return Failure(InvalidFixing(dates[invalid.value], values[invalid.value]));
      }
      if duplicated.Some? {
        var d := dates[duplicated.value];
        return Failure(DuplicatedFixing(d, values[duplicated.value], Lookup(h, d)));
      }
      return Success(());
    }

    /** The loop over the batch. */
    method MergeEntries(h0: Series, dates: seq<Date>, values: seq<real>, forceOverwrite: bool)
      returns (h: Series, invalid: Option<nat>, duplicated: Option<nat>)
      requires |dates| == |values|
      ensures h == Merged(h0, dates, values, valid, forceOverwrite)
      ensures invalid == LastInvalid(dates, valid, |dates|)
      ensures duplicated == LastConflict(h0, dates, values, valid, forceOverwrite, |dates|)
    {
      hide *;
      h, invalid, duplicated := h0, None, None;
      NothingMerged(h0, dates, values, valid, forceOverwrite);
      for i := 0 to |dates|
        invariant h == Merged(h0, dates[..i], values[..i], valid, forceOverwrite)
        invariant invalid == LastInvalid(dates, valid, i)
        invariant duplicated == LastConflict(h0, dates, values, valid, forceOverwrite, i)
      {
        MergedStep(h0, dates, values, valid, forceOverwrite, i);
        LastStep(h0, dates, values, valid, forceOverwrite, i);
        var conflict := false;
        h, conflict := AddEntry(h, dates[i], values[i], forceOverwrite);
        if conflict {
          duplicated := Some(i);
        }
        if !valid(dates[i]) {
          invalid := Some(i);
        }
      }
      assert dates[..|dates|] == dates && values[..|dates|] == values;
    }

    /** One round of the loop: reading the stored value inserts a null one for an unknown date. */
    method AddEntry(h: Series, d: Date, value: real, forceOverwrite: bool) returns (h': Series, conflict: bool)
      ensures h' == if valid(d) && (forceOverwrite || Lookup(h, d) == Null()) then h[d := value] else Touched(h, d)
      ensures conflict <==> valid(d) && !forceOverwrite && Lookup(h, d) != Null() && !Close(Lookup(h, d), value)
    {
      hide Null, Close;
      h', conflict := Touched(h, d), false;
      var currentValue := h'[d];
      var missingFixing := forceOverwrite || currentValue == Null();
      if valid(d) {
        if missingFixing {
          h' := h'[d := value];
        } else if !Close(currentValue, value) {
          conflict := true;
        }
      }
    }

    /** A single fixing is a batch of one. */
    method AddFixing(manager: IndexManager, fixingDate: Date, fixing: real, forceOverwrite: bool)
      returns (r: Result<(), FixingError>)
      modifies manager
      ensures !allowsNativeFixings ==> r == Failure(NativeFixingsNotAllowed) && manager.data == old(manager.data)
      ensures allowsNativeFixings ==>
        && manager.data
           == old(manager.data)[tag := Merged(old(manager.History(tag)), [fixingDate], [fixing], valid, forceOverwrite)]
        && r == Outcome(old(manager.History(tag)), [fixingDate], [fixing], valid, forceOverwrite)
    {
      if !allowsNativeFixings {
        return Failure(NativeFixingsNotAllowed);
      }
      r := AddFixings(manager, [fixingDate], [fixing], forceOverwrite);
    }
  }
}
