/** Instruments that cache results computed by shared, mutable pricing engines
    (ql/instrument.hpp, ql/pricingengine.hpp, ql/patterns/lazyobject.hpp). */
module Instruments {
  import opened Results

  type Field = nat
  type Arguments = map<Field, real>

  datatype Values = Values(
    value: Option<real>,
    errorEstimate: Option<real>,
    valuationDate: Option<int>,
    additional: map<string, real>)

  const BLANK := Values(None, None, None, map[])
  const EXPIRED := Values(Some(0.0), Some(0.0), None, map[])

  datatype PricingError = NullEngine | WrongArguments | InvalidArguments | CalculationFailed | NotProvided

  /** What distinguishes one kind of engine from another: the fields of its arguments, their validation, and the
      results it writes, which may leave some of the previous ones in place. */
  datatype Pricer = Pricer(
    fields: set<Field>,
    validate: Arguments -> bool,
    calculate: (Arguments, int, Values) -> Option<Values>)

  /** The results for the given arguments, from a clean start. */
  function Price(p: Pricer, market: int, arguments: Arguments): Result<Values, PricingError> {
    if !p.validate(arguments) then Failure(InvalidArguments)
    else
      match p.calculate(arguments, market, BLANK)
      case None => Failure(CalculationFailed)
      case Some(r) => Success(r)
  }

  /** The value that results report, if they contain one. */
  function Quoted(r: Result<Values, PricingError>): Result<real, PricingError> {
    if r.Failure? then Failure(r.error)
    else if r.value.value.None? then Failure(NotProvided)
    else Success(r.value.value.value)
  }

  /** Each instrument is registered with its current engine and with no other. */
  ghost predicate Wired(engines: set<Engine>, instruments: set<Instrument>)
    reads engines, instruments
  {
    && (forall i :: i in instruments && i.engine != null ==> i.engine in engines)
    && (forall e :: e in engines ==> e.observers <= instruments && e.arguments.Keys == e.pricer.fields)
    && (forall e, i :: e in engines && i in instruments ==> (i in e.observers <==> i.engine == e))
  }

  /** The instruments that overwrite every field of their engine's arguments have current results cached. */
  ghost predicate Coherent(engines: set<Engine>, instruments: set<Instrument>)
    requires Wired(engines, instruments)
    reads engines, instruments
  {
    forall i :: i in instruments && i.Complete() && i.calculated && !i.expired ==> i.Correct()
  }

  lemma Overwritten(a: Arguments, terms: Arguments)
    requires a.Keys == terms.Keys
    ensures a + terms == terms
  {
  }

  class Engine {
    const pricer: Pricer
    /** The state of the observed market data. */
    var market: int
    var arguments: Arguments
    var results: Values
    var observers: set<Instrument>

    constructor (pricer: Pricer, arguments: Arguments)
      requires arguments.Keys == pricer.fields
      ensures this.pricer == pricer && this.arguments == arguments && observers == {}
    {
      this.pricer, this.arguments := pricer, arguments;
      market, results, observers := 0, BLANK, {};
    }

    method NotifyObservers()
      modifies observers`calculated
      ensures forall i :: i in observers ==> !i.calculated
    {
      var pending := observers;
      while pending != {}
        invariant pending <= observers
        invariant forall i :: i in observers && i !in pending ==> !i.calculated
        decreases |pending|
      {
        var i :| i in pending;
        i.Update();
        pending := pending - {i};
      }
    }

    /** The data observed by the engine changes, and the engine passes the notification on. */
    method ChangeMarket(x: int, ghost engines: set<Engine>, ghost instruments: set<Instrument>)
      requires this in engines && Wired(engines, instruments) && Coherent(engines, instruments)
      modifies this`market, observers`calculated
      ensures market == x && Wired(engines, instruments) && Coherent(engines, instruments)
    {
      market := x;
      NotifyObservers();
    }
  }

  class Instrument {
    /** What `setupArguments` writes. */
    var terms: Arguments
    var expired: bool
    var engine: Engine?
    var calculated: bool
    var cached: Values

    constructor (terms: Arguments, expired: bool)
      ensures this.terms == terms && this.expired == expired
      ensures engine == null && !calculated && cached == BLANK
    {
      this.terms, this.expired := terms, expired;
      engine, calculated, cached := null, false, BLANK;
    }

    /** The arguments are overwritten completely. */
    ghost predicate Complete()
      reads this
    {
      engine != null ==> terms.Keys == engine.pricer.fields
    }

    /** The cached results are those of the instrument's own terms. */
    ghost predicate Correct()
      reads this, engine
    {
      engine != null && Price(engine.pricer, engine.market, terms) == Success(cached)
    }

    ghost function Engines(): set<Engine>
      reads this
    {
      if engine == null then {} else {engine}
    }

    method Update()
      modifies `calculated
      ensures !calculated
    {
      if calculated {
        calculated := false;
      }
    }

    /** Results of the terms, on top of whatever the arguments contained before. */
    function Priced(): Result<Values, PricingError>
      reads this, engine
    {
      if engine == null then Failure(NullEngine)
      else if !(terms.Keys <= engine.pricer.fields) then Failure(WrongArguments)
      else Price(engine.pricer, engine.market, engine.arguments + terms)
    }

    /** The engine starts from blank results and from its previous arguments, overlaid by the terms. */
    method PerformCalculations() returns (r: Option<PricingError>)
      modifies `cached, Engines()`arguments, Engines()`results
      ensures r == Some(NullEngine) <==> engine == null
      ensures r == Some(WrongArguments) <==> engine != null && !(terms.Keys <= engine.pricer.fields)
      ensures engine != null && terms.Keys <= engine.pricer.fields ==>
        && (r == Some(InvalidArguments) <==> !engine.pricer.validate(old(engine.arguments) + terms))
        && (engine.pricer.validate(old(engine.arguments) + terms) ==>
              match engine.pricer.calculate(old(engine.arguments) + terms, engine.market,
                                            Values(None, None, None, map[]))
              case None => r == Some(CalculationFailed)
              case Some(v) => r.None? && cached == v && engine.results == v)
      ensures old(Priced()) == if r.None? then Success(cached) else Failure(r.value)
      ensures r.Some? ==> cached == old(cached)
      ensures forall e :: e in Engines() ==>
        e.arguments == if terms.Keys <= e.pricer.fields then old(e.arguments) + terms else old(e.arguments)
    {
      if engine == null {
        return Some(NullEngine);
      }
      engine.results := BLANK;
      if !(terms.Keys <= engine.pricer.fields) {
        return Some(WrongArguments);
      }
      engine.arguments := engine.arguments + terms;
      if !engine.pricer.validate(engine.arguments) {
        return Some(InvalidArguments);
      }
      var computed := engine.pricer.calculate(engine.arguments, engine.market, engine.results);
      if computed.None? {
        return Some(CalculationFailed);
      }
      engine.results := computed.value;
      cached := engine.results;
      r := None;
    }

    method Calculate() returns (r: Option<PricingError>)
      modifies `cached, `calculated, Engines()`arguments, Engines()`results
      ensures expired ==> r.None? && cached == Values(Some(0.0), Some(0.0), None, map[]) && calculated
      ensures !expired && old(calculated) ==> r.None? && calculated && cached == old(cached)
      ensures !expired && !old(calculated) ==>
        old(Priced()) == (if r.None? then Success(cached) else Failure(r.value)) && calculated == r.None?
      ensures r.Some? ==> cached == old(cached)
      ensures forall e :: e in Engines() ==>
        e.arguments == if !expired && !old(calculated) && terms.Keys <= e.pricer.fields then old(e.arguments) + terms
                       else old(e.arguments)
    {
      if expired {
        cached := EXPIRED;
        calculated := true;
        return None;
      }
      r := None;
      if !calculated {
        calculated := true;
        r := PerformCalculations();
        if r.Some? {
          calculated := false;
        }
      }
    }

    /** What the instrument is worth: the engine's function of its own terms. */
    function Worth(): Result<real, PricingError>
      reads this, engine
    {
      if expired then Success(0.0)
      else if engine == null then Failure(NullEngine)
      else Quoted(Price(engine.pricer, engine.market, terms))
    }

    /** Calculates if necessary, and reports the value in the cached results. */
    method Report() returns (r: Result<real, PricingError>)
      modifies `cached, `calculated, Engines()`arguments, Engines()`results
      ensures expired ==> r == Success(0.0) && calculated && cached == EXPIRED
      ensures !expired && old(calculated) ==> r == Quoted(Success(cached)) && calculated && cached == old(cached)
      ensures !expired && !old(calculated) ==>
        && r == Quoted(old(Priced())) && calculated == old(Priced()).Success?
        && (if calculated then Success(cached) == old(Priced()) else cached == old(cached))
      ensures forall e :: e in Engines() ==>
        e.arguments == if !expired && !old(calculated) && terms.Keys <= e.pricer.fields then old(e.arguments) + terms
                       else old(e.arguments)
    {
      var failure := Calculate();
      if failure.Some? {
        return Failure(failure.value);
      }
      r := if cached.value.None? then Failure(NotProvided) else Success(cached.value.value);
    }

    /** Terms that fill every field price as if nothing had been there before. */
    lemma CompleteTermsPrice()
      requires Complete() && !expired && (engine != null ==> engine.arguments.Keys == engine.pricer.fields)
      ensures Quoted(Priced()) == Worth()
      ensures engine != null ==> Priced() == Price(engine.pricer, engine.market, terms)
    {
      if engine != null {
        Overwritten(engine.arguments, terms);
      }
    }

    /** Whatever other instruments did with the engine in between, the value returned is that of this instrument. */
    method NPV(ghost engines: set<Engine>, ghost instruments: set<Instrument>) returns (r: Result<real, PricingError>)
      requires this in instruments && Wired(engines, instruments) && Coherent(engines, instruments)
      modifies `cached, `calculated, Engines()`arguments, Engines()`results
      ensures Wired(engines, instruments) && Coherent(engines, instruments)
      ensures Complete() ==> r == old(Worth())
      ensures expired ==> r == Success(0.0)
      ensures !expired && old(calculated) ==>
        r == if cached.value.None? then Failure(NotProvided) else Success(cached.value.value)
      ensures !expired && !old(calculated) && engine == null ==> r == Failure(NullEngine)
      ensures !expired && !old(calculated) && engine != null && Complete() ==>
        && (r == Failure(InvalidArguments) <==> !engine.pricer.validate(terms))
        && (engine.pricer.validate(terms) ==>
              match engine.pricer.calculate(terms, engine.market, Values(None, None, None, map[]))
              case None => r == Failure(CalculationFailed)
              case Some(v) => r == if v.value.None? then Failure(NotProvided) else Success(v.value.value))
    {
      ghost var complete := Complete();
      if complete && !expired {
        CompleteTermsPrice();
      }
      r := Report();
    }

    method SetPricingEngine(e: Engine?, ghost engines: set<Engine>, ghost instruments: set<Instrument>)
      requires this in instruments && Wired(engines, instruments) && Coherent(engines, instruments)
      requires e != null ==> e in engines
      modifies `engine, `calculated, (engines)`observers
      ensures engine == e && Wired(engines, instruments) && Coherent(engines, instruments)
      ensures forall x :: x in engines ==>
        x.observers == if x == e then old(x.observers) + {this} else old(x.observers) - {this}
    {
      Reattach(e, engines, instruments);
      Update();
    }

    /** Unregisters from the current engine and registers with the new one. */
    method Reattach(e: Engine?, ghost engines: set<Engine>, ghost instruments: set<Instrument>)
      requires this in instruments && Wired(engines, instruments) && (e != null ==> e in engines)
      modifies `engine, (engines)`observers
      ensures engine == e && Wired(engines, instruments)
      ensures forall x :: x in engines ==>
        x.observers == if x == e then old(x.observers) + {this} else old(x.observers) - {this}
    {
      if engine != null {
        engine.observers := engine.observers - {this};
      }
      engine := e;
      if engine != null {
        engine.observers := engine.observers + {this};
      }
    }

    /** The data of the instrument change, and it updates itself. */
    method ChangeTerms(terms: Arguments, ghost engines: set<Engine>, ghost instruments: set<Instrument>)
      requires this in instruments && Wired(engines, instruments) && Coherent(engines, instruments)
      modifies `terms, `calculated
      ensures this.terms == terms && Wired(engines, instruments) && Coherent(engines, instruments)
    {
      this.terms := terms;
      Update();
    }

    /** The instrument is alive again, as after a change of the evaluation date that it is notified of. */
    method Revive(ghost engines: set<Engine>, ghost instruments: set<Instrument>)
      requires this in instruments && Wired(engines, instruments) && Coherent(engines, instruments)
      modifies `expired, `calculated
      ensures !expired && Wired(engines, instruments) && Coherent(engines, instruments)
    {
      expired := false;
      Update();
    }

    /** The instrument is alive again without any notification, and is asked for its value. */
    method ReportRevived() returns (r: Result<real, PricingError>)
      requires expired && Complete() && (engine != null ==> engine.arguments.Keys == engine.pricer.fields)
      modifies `expired, `cached, `calculated, Engines()`arguments, Engines()`results
      ensures !expired
      ensures engine != null ==> r == RevivedReport(old(calculated), old(cached), engine.pricer, engine.market, terms)
      ensures engine == null ==> r == if old(calculated) then Quoted(Success(old(cached))) else Failure(NullEngine)
      ensures r == Worth() <==> !old(calculated) || Quoted(Success(old(cached))) == Worth()
    {
      expired := false;
      CompleteTermsPrice();
      r := Report();
    }

    /** In particular, one that was asked while it was expired goes on reporting zero. */
    method ReportExpiredThenRevived() returns (r: Result<real, PricingError>)
      requires expired && Complete() && (engine != null ==> engine.arguments.Keys == engine.pricer.fields)
      modifies `expired, `cached, `calculated, Engines()`arguments, Engines()`results
      ensures !expired && r == Success(0.0)
      ensures r == Worth() <==> Worth() == Success(0.0)
    {
      var _ := Report();
      r := ReportRevived();
    }

    method Expire(ghost engines: set<Engine>, ghost instruments: set<Instrument>)
      requires this in instruments && Wired(engines, instruments) && Coherent(engines, instruments)
      modifies `expired
      ensures expired && Wired(engines, instruments) && Coherent(engines, instruments)
    {
      expired := true;
    }
  }

  // ----- revival without notification -----

  /** What an instrument reports that is alive again without having been notified. */
  function RevivedReport(calculated: bool, cached: Values, p: Pricer, market: int, terms: Arguments):
    Result<real, PricingError>
  {
    if calculated then Quoted(Success(cached)) else Quoted(Price(p, market, terms))
  }

  /** An engine that always reports the same value. */
  function Fixed(fields: set<Field>, x: real): Pricer {
    Pricer(fields, _ => true, (_, _, r: Values) => Some(r.(value := Some(x))))
  }

  lemma FixedReports(fields: set<Field>, x: real, market: int, terms: Arguments)
    ensures Quoted(Price(Fixed(fields, x), market, terms)) == Success(x)
  {
  }

  /** It reports what its engine makes of its terms, for every engine with the given fields and every state of the
      market, exactly when it had not calculated before. */
  lemma RevivalNeedsNotification(fields: set<Field>, calculated: bool, cached: Values, terms: Arguments)
    ensures (forall p: Pricer, market: int :: p.fields == fields ==>
               RevivedReport(calculated, cached, p, market, terms) == Quoted(Price(p, market, terms)))
       <==> !calculated
  {
    hide Price;
    if calculated {
      var x := if cached.value == Some(0.0) then 1.0 else 0.0;
      FixedReports(fields, x, 0, terms);
      assert Fixed(fields, x).fields == fields;
    }
  }

  // ----- leftover arguments -----

  /** An engine that reports one field of its arguments. */
  function Reader(fields: set<Field>, f: Field): Pricer {
    Pricer(fields, _ => true, (a: Arguments, _, r: Values) => if f in a then Some(r.(value := Some(a[f]))) else None)
  }

  lemma ReaderReads(fields: set<Field>, f: Field, market: int, a: Arguments)
    requires f in a
    ensures Price(Reader(fields, f), market, a) == Success(BLANK.(value := Some(a[f])))
  {
  }

  /** What the engine made of its arguments before is of no consequence. */
  ghost predicate Independent(p: Pricer, terms: Arguments) {
    forall market: int, a: Arguments, b: Arguments :: a.Keys == p.fields && b.Keys == p.fields ==>
      Price(p, market, a + terms) == Price(p, market, b + terms)
  }

  /** The results of an instrument are the same whatever was priced before, for every engine with the given fields,
      exactly when the instrument overwrites every field. */
  lemma LeftoversMatter(fields: set<Field>, terms: Arguments)
    requires terms.Keys <= fields
    ensures terms.Keys == fields <==> forall p: Pricer :: p.fields == fields ==> Independent(p, terms)
  {
    if terms.Keys == fields {
      forall p: Pricer | p.fields == fields ensures Independent(p, terms) {
        CompleteIsIndependent(p, terms);
      }
    } else {
      var f :| f in fields && f !in terms.Keys;
      LeftFieldShows(fields, terms, f);
    }
  }

  lemma CompleteIsIndependent(p: Pricer, terms: Arguments)
    requires terms.Keys == p.fields
    ensures Independent(p, terms)
  {
    forall market: int, a: Arguments, b: Arguments | a.Keys == p.fields && b.Keys == p.fields
      ensures Price(p, market, a + terms) == Price(p, market, b + terms)
    {
      Overwritten(a, terms);
      Overwritten(b, terms);
    }
  }

  lemma LeftFieldShows(fields: set<Field>, terms: Arguments, f: Field)
    requires f in fields && f !in terms.Keys
    ensures !Independent(Reader(fields, f), terms)
  {
    var a: Arguments := map g | g in fields :: 0.0;
    var b: Arguments := a[f := 1.0];
    ReaderReads(fields, f, 0, a + terms);
    ReaderReads(fields, f, 0, b + terms);
    assert b.Keys == fields;
  }

  /** An engine whose result is the sum of two arguments. */
  function Adder(): Pricer {
    Pricer({0, 1}, _ => true,
           (a: Arguments, _, r: Values) =>
             if 0 in a && 1 in a then Some(r.(value := Some(a[0] + a[1]))) else None)
  }

  lemma AdderAdds(market: int, a: Arguments)
    requires 0 in a && 1 in a
    ensures Price(Adder(), market, a) == Success(BLANK.(value := Some(a[0] + a[1])))
  {
  }

  lemma Unattached(e: Engine, i: Instrument, j: Instrument)
    requires e.observers == {} && e.arguments.Keys == e.pricer.fields
    requires i.engine == j.engine == null && !i.calculated && !j.calculated
    ensures Wired({e}, {i, j}) && Coherent({e}, {i, j})
  {
  }

  method Repriced(e: Engine, i: Instrument) returns (npv: real)
    requires i.engine == e && e.pricer == Adder() && !i.expired
    requires i.terms.Keys <= {0, 1} == e.arguments.Keys
    modifies i`calculated, i`cached, e`arguments, e`results
    ensures e.arguments == old(e.arguments) + i.terms && npv == e.arguments[0] + e.arguments[1]
  {
    i.Update();
    AdderAdds(e.market, e.arguments + i.terms);
    var _ := i.Calculate();
    npv := i.cached.value.value;
  }

  /** An engine and two instruments registered with it. */
  method TwoOnOneEngine(terms: Arguments, terms': Arguments) returns (e: Engine, i: Instrument, j: Instrument)
    ensures fresh(e) && fresh(i) && fresh(j) && i != j
    ensures e.pricer == Adder() && e.arguments == map[0 := 0.0, 1 := 0.0] && e.observers == {i, j}
    ensures i.engine == j.engine == e && !i.expired && !j.expired && i.terms == terms && j.terms == terms'
  {
    e := new Engine(Adder(), map[0 := 0.0, 1 := 0.0]);
    i := new Instrument(terms, false);
    j := new Instrument(terms', false);
    Unattached(e, i, j);
    hide Wired, Coherent;
    i.SetPricingEngine(e, {e}, {i, j});
    j.SetPricingEngine(e, {e}, {i, j});
  }

  /** An instrument that leaves a field alone gets a value that depends on which instrument was priced before. */
  method LeftoverArguments() returns (before: real, after: real)
    ensures before == 5.0 && after == 6.0
  {
    var e, partial, other := TwoOnOneEngine(map[0 := 5.0], map[0 := 2.0, 1 := 1.0]);
    before := Repriced(e, partial);
    var _ := Repriced(e, other);
    after := Repriced(e, partial);
  }

  /** An instrument that stops being expired without being notified keeps the value it had as expired. */
  method RevivedSilently() returns (npv: Result<real, PricingError>, worth: Result<real, PricingError>)
    ensures npv == Success(0.0) && worth == Success(3.0)
  {
    var e, i, _ := TwoOnOneEngine(map[0 := 2.0, 1 := 1.0], map[]);
    i.expired := true;
    npv := i.ReportExpiredThenRevived();
    AdderAdds(e.market, i.terms);
    worth := i.Worth();
  }
}
