# QuantLib framework core

A Dafny model of the stateful and algorithmic parts of the QuantLib framework, with proofs of what they promise.
Real numbers stand for `Real` and `Time`; exceptions are results. Code that changes objects step by step is written as
classes and loops and proved against functions, and the theorems are about those functions.

- **Time grids and lattices** (`TimeGrid.dfy`, `Comparison.dfy`, `Lattice.dfy`, `Processes.dfy`,
  `DiscretizedAsset.dfy`). The grid constructors and lookups with the library's own closeness tolerance; the tree
  lattice with backward values and forward state prices; discretized assets with their two adjustment guards. `Processes`
  gives the values of an asset in closed form, node by node, and shows that those of an option are the Snell envelope and
  the value of the best exercise policy. `DiscretizedAsset` proves that the in-place protocol of rollbacks, adjustments
  and exercise, on chains of options of any length, computes exactly that closed form.
- **Observers** (`Observers.dfy`). Quotes, relinkable handles, moving term structures and lazy objects in an acyclic
  graph. Every operation keeps the invariant that what is cached is what recomputation would give; the set of caches that
  a notification clears is given in closed form, and so is the condition under which a cache goes stale.
- **Instruments** (`Instruments.dfy`). Instruments that share a mutable engine. Cached results stay those of the
  instrument's own terms in any order of pricing, re-engining and market changes.
- **Fixings and price series** (`Fixings.dfy`, `Prices.dfy`). The batch merge with its commit before the error, and series
  built from and split into columns.
- **Exchange rates and money** (`ExchangeRates.dfy`, `RateManagers.dfy`, `Triangulation.dfy`, `Roundings.dfy`, `Money.dfy`,
  `MoneyObjects.dfy`, `RouteExample.dfy`). Chained rates, the search for a chain, triangulation, rounding, and arithmetic
  and comparison across currencies with error bounds over sums of any length.
- **Derivatives** (`Forms.dfy`, `DerivativeCalculators.dfy`, `Matrices.dfy`, `MatrixPolynomials.dfy`). Derivatives read off
  Taylor coefficients by polarisation, and the derivative of a matrix polynomial.

## Where the code differs from its documentation

- The comments on adjustments (ql/discretizedasset.hpp:90-109) place an exercise between the pre- and the
  post-adjustment of the underlying. At the first node of an option whose underlying was initialised at the same node,
  the underlying has already made both, and only there (`DiscretizedAssets.DiscretizedAsset.LookAtUnderlying`,
  `DiscretizedAssets.ExercisedAfterPayment`).
- Mandatory points are said to belong to the grid (ql/timegrid.hpp:47-49 and 75-79). They are all retained exactly when
  no two different ones are close (`TimeGrids.EveryTimeRetained`, `TimeGrids.NearDuplicateDropped`), and the same
  condition decides whether they are all nodes of the two-argument grid, or of a three-argument grid whose nodes are
  pairwise not close (`TimeGrids.MandatoryGridHoldsInput`, `TimeGrids.SubdividedGridHoldsInput`); otherwise the points
  that the latter adds may put a dropped time back (`TimeGrids.DroppedTimeIsNode`). A dropped exercise date moves to its
  node, which an American window around the date may miss (`Processes.WindowCoversDates`, `Processes.WindowMissesNode`).
- The two-argument grid is said to have no additional points (ql/timegrid.hpp:48). It has zero besides the retained times,
  and nothing else (`TimeGrids.MandatoryGrid`).
- Points are said to be added to reach the desired number of steps (ql/timegrid.hpp:77-79). That number is reached for all
  lists with a given number of positive times exactly when there is only one (`TimeGrids.StepsReached`,
  `TimeGrids.OneStepMissed`); for more, `TimeGrids.SubdividedIntervals` gives the bounds.
- The mixed calculators are said to need all other mixed derivatives to be zero
  (test-suite-adjoint/adjointeuropeanoptionportfolioimpl.hpp:240-242 and 293-295). The forward ones do not
  (`DerivativeCalculators.CalculateMixedSecond`, `DerivativeCalculators.CalculateMixedThird`). The comment inside the
  third-order one (lines 309-314) derives the derivative taken twice in the first variable; the code takes it twice in
  the second, as the heading says.
- Chaining two rates between the same two currencies is accepted but gives a rate from a currency to itself
  that accepts an amount it should refuse
  (`ExchangeRates.ChainExchangesByItsRate`, `ExchangeRates.SharingBothMisleads`).
- In automated mode equality of amounts is symmetric only between currencies that do not round and convert into each
  other by inverse factors. A quoted pair always does the latter; a pair whose rates are found by search need not, since
  the two directions may take different routes (`MoneyObjects.EqualityIsSymmetricWhenExact`,
  `MoneyObjects.RoundedEqualityDependsOnOrder`, `RouteExamples.RoutesBreakSymmetry`).
- An instrument has to overwrite every field of its engine's arguments for its value not to depend on other instruments
  (`Instruments.LeftoversMatter`, `Instruments.LeftoverArguments`), and one that was asked while
  expired and stops being expired has to be notified (`Instruments.RevivalNeedsNotification`,
  `Instruments.Instrument.ReportExpiredThenRevived`, `Instruments.RevivedSilently`).
- The closeness comparisons use a strict bound, the square of the tolerance, when one number is zero
  (ql/math/comparison.hpp:70-71 and 88-89), which their formulas do not mention; only there do they differ from them
  (`Comparison.ClosenessAsDocumented`).

## Model

| member | source | states |
|---|---|---|
| TimeGrids.NegativeTimesRejected | ql/timegrid.hpp:54-59 | The constructors reject exactly the inputs that hold a negative time. |
| TimeGrids.RetainedTimes | ql/timegrid.hpp:60-63 | Sorting and dropping near-duplicates leaves input times only, strictly increasing and pairwise not close; every input time is close to a retained one that does not exceed it. |
| TimeGrids.MandatoryGrid | ql/timegrid.hpp:65-69 | The two-argument grid starts at zero, increases strictly and holds zero and the retained times and nothing else; its nodes are pairwise not close exactly when the first retained time is zero or at least the square of the tolerance. |
| TimeGrids.SubdividedGrid | ql/timegrid.hpp:95-129 | The three-argument grid starts at zero and increases strictly, every retained mandatory time is a node and the last one is the last node; the target step is the given fraction of the last time, or with `steps == 0` the least distance between consecutive mandatory times counted from zero, every step is shorter than 1.5 target steps, and with `steps == 0` also at least 0.75 target steps. |
| TimeGrids.DtMaxIsTarget | ql/timegrid.hpp:99-110 | The step length that the constructor chooses is the only one that is that fraction, or that least distance: no distance is below it and one equals it. |
| TimeGrids.PeriodDivided | ql/timegrid.hpp:112-129 | Between two consecutive mandatory times a and b, counted from zero, the nodes of the finished grid are evenly spaced, in as many steps as the nearest integer to `(b - a) / g`, or one, where g is the least distance between consecutive times or the last time over the desired number of steps. |
| TimeGrids.ShortestPeriodWhole | ql/timegrid.hpp:99-107 | With `steps == 0` a shortest period has no node inside it. |
| TimeGrids.SubdividedIntervals | ql/timegrid.hpp:108-129 | With `steps` requested over m positive mandatory times the number of intervals lies strictly between `steps - m/2` and `steps + m` and is at least m. |
| TimeGrids.ShortLeadsAddSteps | ql/timegrid.hpp:119-126 | For any number k of positive times from two on, some list has `steps + k - 1` intervals: the upper bound is attained. |
| TimeGrids.StepsReached | ql/timegrid.hpp:77-79 | Every list with k positive times gets the desired number of steps if and only if k is one. |
| TimeGrids.OneStepMissed | ql/timegrid.hpp:77-79 | Concrete times for which one step is desired and two are made. |
| TimeGrids.PeriodIsRegular | ql/timegrid.hpp:119-126 | The steps of a period are equal and end at its end, and their number is the nearest integer to its length in target steps, or one. |
| TimeGrids.GuardNeverFires | ql/timegrid.hpp:119-122 | With `steps == 0` every period rounds to at least one step of the least distance before the guard is applied. |
| TimeGrids.WideStepsApart | ql/timegrid.hpp:112-129 | Nodes are pairwise not close once the shortest step exceeds the tolerance times the last node. |
| TimeGrids.StepsSumToNodes | ql/timegrid.hpp:131-132 | On any grid that starts at zero the first i stored steps sum to node i. |
| TimeGrids.UniformSteps | ql/timegrid.cpp:32-40 | The uniform grid runs from zero to the end time in strictly increasing nodes, and its constant stored step is the difference of every two neighbours. |
| TimeGrids.LowerBound | ql/timegrid.cpp:82 | The binary search returns the first node not below the time. |
| TimeGrids.ClosestIndex | ql/timegrid.cpp:80-95 | The returned node is a nearest one, and the leftmost of them. |
| TimeGrids.Index | ql/timegrid.cpp:43-78 | A returned node is close to the time; a failure says which side of the grid the time is on, or names the two neighbouring nodes that surround it. |
| TimeGrids.IndexOfNode | ql/timegrid.cpp:43-47 | Looking up a node of a strictly increasing grid returns its own position. |
| TimeGrids.InputTimeIndexed | ql/timegrid.cpp:43-47 | On any grid that holds the retained times lookup never fails on an input time, even on one dropped as a near-duplicate, unless it is positive but below the square of the tolerance and zero is listed too. |
| TimeGrids.MandatoryTimeIndexed | ql/timegrid.cpp:43-47 | On the two-argument grid lookup fails on an input time if and only if zero is listed, the time is positive and below the square of the tolerance, and the next retained time is nearer to it than zero but not close to it. |
| TimeGrids.MandatoryTimeNotFound | ql/timegrid.cpp:43-47 | A concrete list for one of whose times lookup fails on its own grid. |
| TimeGrids.ClearTimesIndexed | ql/timegrid.cpp:43-47 | If no two different times are close, or zero is not listed, or no positive time is below the square of the tolerance, lookup succeeds on all of them, on any grid that holds the retained ones. |
| TimeGrids.EveryTimeRetained | ql/timegrid.hpp:60-63 | Every mandatory time is retained if and only if no two different ones are close; listing the same time twice does no harm. |
| TimeGrids.EveryTimeIsNode | ql/timegrid.hpp:46-78 | On any grid that holds the retained times and has no two close nodes, all input times are nodes if and only if no two different ones are close. |
| TimeGrids.MandatoryGridHoldsInput | ql/timegrid.hpp:47-49 | All input times are nodes of the two-argument grid if and only if no two different ones are close. |
| TimeGrids.SubdividedGridHoldsInput | ql/timegrid.hpp:75-79 | They are nodes of the three-argument grid if no two different ones are close, and only then where the nodes are pairwise not close. |
| TimeGrids.DroppedTimeIsNode | ql/timegrid.hpp:112-129 | A concrete list with two close times, of which one is dropped and then made a node again by the subdivision. |
| TimeGrids.NearDuplicateDropped | ql/timegrid.hpp:60-63 | A concrete mandatory time, half the tolerance above another one, that does not belong to the grid. |
| TimeGrids.TimeGrid.Uniform | ql/timegrid.cpp:26-41 | Fails exactly for an end that is not positive; otherwise fills nodes, steps and mandatory times. |
| TimeGrids.TimeGrid.FromTimes | ql/timegrid.hpp:51-74 | Fails exactly when some time is negative; otherwise holds the retained times and the steps between the nodes. |
| TimeGrids.TimeGrid.WithSteps | ql/timegrid.hpp:81-133 | Fails exactly when some time is negative; otherwise the loops build the subdivided grid of the retained times. |
| TimeGrids.TimeGrid.FillPeriods | ql/timegrid.hpp:112-129 | The loop over the mandatory times with its running period start appends the nodes of every period in turn. |
| TimeGrids.TimeGrid.AppendPeriod | ql/timegrid.hpp:119-126 | One period is cut into equal steps, at least one. |
| Comparison.Symmetric | ql/math/comparison.hpp:63-93 | Both closeness relations are symmetric. |
| Comparison.CloseBelow | ql/math/comparison.hpp:81-93 | On non-negative numbers whatever lies between two close numbers is close to the lower one. |
| Comparison.ClosenessAsDocumented | ql/math/comparison.hpp:33-53 | Both relations agree with their documented formulas if and only if it is not the case that one of the numbers is zero and the other is within the square of the tolerance of it. |
| Comparison.NearerIsCloseEnough | ql/math/comparison.hpp:81-93 | A point no farther from a positive time than a lower point close to it is close to it as well. |
| Comparison.DaysApart | ql/math/comparison.hpp:63-93 | Two times within a century that are at least a day apart are not close in either sense. |
| Lattices.StepBackMonotone | ql/methods/lattices/lattice.hpp:166-179 | With non-negative probabilities and discounts the step back preserves the pointwise order of value vectors. |
| Lattices.BinomialIsHomogeneous | ql/methods/lattices/bsmlattice.hpp:49-62 | A binomial tree with one pair of weights and one discount factor meets the conditions of the Black-Scholes step back, and its weights are non-negative if and only if these three numbers are. |
| Lattices.StepBackDuality | ql/methods/lattices/lattice.hpp:97-111 | Values weighted by the state prices of a node are worth what their step back is worth at the state prices of the node before. |
| Lattices.RollbackKeepsPresentValue | ql/methods/lattices/lattice.hpp:120-124 | Rolling values back over any number of nodes does not change their value at the state prices. |
| Lattices.PresentValueIsRootValue | ql/methods/lattices/lattice.hpp:120-124 | The present value from state prices is the single value obtained by rolling back to the root. |
| Processes.OptionValuesDominate | ql/discretizedasset.cpp:25-51 | The rolled-back values of an option are non-negative at its start, never below their own step back, and never below the underlying at a node where exercise is allowed. |
| Processes.OptionValuesAreLeast | ql/discretizedasset.cpp:25-51 | Among all such families of values the rolled-back ones are the least at every node: they are the Snell envelope. |
| Processes.PoliciesAreBelow | ql/discretizedasset.hpp:240-243 | No exercise policy that the contract allows is worth more than the option at any node. |
| Processes.BestPolicyIsWorthTheOption | ql/discretizedasset.hpp:240-243 | Exercising as soon as the underlying is worth at least as much as waiting is worth exactly the option. |
| Processes.RicherIsWorthMore | ql/discretizedasset.cpp:34-46 | An option, or an option on an option to any depth, whose exercise rights include those of another is worth at least as much at every node, before and after each adjustment. |
| Processes.MoreDates | ql/discretizedasset.cpp:38-45 | Adding exercise dates to a European or Bermudan schedule only adds exercise nodes. |
| Processes.MoreDatesAreWorthMore | ql/discretizedasset.cpp:38-45 | A European or Bermudan option on any underlying is worth at least as much, at every node, as one with fewer dates. |
| Processes.WindowCoversDates | ql/discretizedasset.cpp:34-46 | An American window gives all the rights of a schedule if and only if it contains, for each date, the node that the grid holds for it. |
| Processes.WindowIsWorthMore | ql/discretizedasset.cpp:34-46 | An American option whose window contains the nodes of all the dates of a schedule is worth at least as much, at every node, as the option with that schedule. |
| Processes.WindowMissesNode | ql/discretizedasset.cpp:34-46 | A concrete window that contains the date but not its node: the European option may be exercised there and the American may not. |
| Processes.WindowCoversNodes | ql/discretizedasset.cpp:34-46 | Dates that are nodes themselves only have to be inside the window. |
| Processes.NodeOnTime | ql/discretizedasset.hpp:215-218 | A time that is a node of the grid is looked up as exactly that node. |
| Processes.OnTimeAtOneNode | ql/discretizedasset.hpp:215-218 | On a grid of pairwise not close nodes a time is on time at one node and no other. |
| Processes.NegativesDropped | ql/discretizedasset.hpp:229-238 | Dropping times up to the first non-negative one loses no non-negative time, and leaves none negative exactly when no negative time follows a non-negative one. |
| DiscretizedAssets.TreeLattice.ComputeStatePrices | ql/methods/lattices/lattice.hpp:97-111 | Extends the cached state prices up to the requested node and keeps those already there. |
| DiscretizedAssets.TreeLattice.StatePricesAt | ql/methods/lattices/lattice.hpp:113-118 | Whatever has been cached before, the returned vector is the forward state prices of the node. |
| DiscretizedAssets.TreeLattice.StepBackValues | ql/methods/lattices/lattice.hpp:166-179 | The two nested loops compute the discounted expectation of every state. |
| DiscretizedAssets.TreeLattice.StepBackHomogeneous | ql/methods/lattices/bsmlattice.hpp:84-89 | The step back of the Black-Scholes lattice, which uses one pair of weights and one discount factor, computes the same values as the general one. |
| DiscretizedAssets.TreeLattice.PresentValue | ql/methods/lattices/lattice.hpp:120-124 | The dot product of the values with the state prices of the node that the asset is at. |
| DiscretizedAssets.TreeLattice.TargetOfNode | ql/methods/lattices/lattice.hpp:143-153 | A rollback to the time of an earlier node, or of the same one, ends at exactly that node. |
| DiscretizedAssets.TreeLattice.PartialRollback | ql/methods/lattices/lattice.hpp:139-164 | Fails, leaving the asset alone, exactly for times that are later or not on the grid; otherwise the asset is at the target node with every adjustment made on the way and none there; rolling to the current time changes nothing. |
| DiscretizedAssets.TreeLattice.Rollback | ql/methods/lattices/lattice.hpp:133-137 | After a rollback the values, updated in place node by node together with those of the whole chain of underlyings, are the closed form of the asset at the target node. |
| DiscretizedAssets.DiscretizedAsset.MoveTo | ql/methods/lattices/lattice.hpp:155-159 | Storing the stepped-back values one node earlier re-arms both adjustment guards. |
| DiscretizedAssets.DiscretizedAsset.PreAdjustValues | ql/discretizedasset.hpp:201-206 | The adjustment is made once per node; a repeated call at the same time changes no value. |
| DiscretizedAssets.DiscretizedAsset.PostAdjustValues | ql/discretizedasset.hpp:208-213 | The adjustment is made once per node, and after it the underlying is settled at the node of the option; a repeated call at the same time changes no value. |
| DiscretizedAssets.DiscretizedAsset.AdjustedOncePerNode | ql/discretizedasset.hpp:201-213 | A settled asset has made exactly one pre- and one post-adjustment at every node from its start down to where it is, in this order, and its underlying is at the same time. |
| DiscretizedAssets.DiscretizedAsset.LookAtUnderlying | ql/discretizedasset.cpp:31-32 | Before the exercise the underlying is at the option's node and pre-adjusted; it has already been post-adjusted, against what the comments say, if and only if this is the option's first node and the underlying was there before the option. |
| DiscretizedAssets.ExercisedAfterPayment | ql/discretizedasset.hpp:90-109 | A concrete run of that exception: both assets are initialised at the same node, and the option collects a payment that the comments reserve for the time after the exercise. |
| DiscretizedAssets.PriceOption | ql/discretizedasset.cpp:25-51 | Initialising an option and rolling it back leaves it with the least values that are non-negative at its start, not below their own step back and not below the underlying where exercise is allowed, from the node of the first time to that of the second; it fails exactly when one of these nodes is not to be had, the underlying is on another lattice or already earlier, or the grid does not hold the exercise times. |
| DiscretizedAssets.DiscretizedAsset.ExerciseOption | ql/discretizedasset.cpp:25-51 | The whole exercise step leaves the option with its post-adjusted closed form and the underlying settled at the same node. |
| DiscretizedAssets.DiscretizedAsset.ExerciseOnDates | ql/discretizedasset.cpp:38-45 | However many dates fall on the node, the exercise condition is applied as if once. |
| DiscretizedAssets.DiscretizedAsset.ApplyExerciseRights | ql/discretizedasset.cpp:34-49 | The condition is applied exactly at the nodes where the exercise type allows it. |
| DiscretizedAssets.DiscretizedAsset.ApplyExerciseCondition | ql/discretizedasset.hpp:240-243 | The loop replaces each value by the larger of it and the underlying's. |
| DiscretizedAssets.DiscretizedAsset.Initialize | ql/discretizedasset.hpp:182-187 | Fails exactly when the time is not on the grid, the underlying is on another lattice or already earlier, or an exercise time is not on the grid; otherwise the asset is settled at the node. |
| DiscretizedAssets.DiscretizedAsset.Begin | ql/methods/lattices/lattice.hpp:126-131 | Taking its place on the lattice leaves the asset settled at its start, and records whether the underlying had already been adjusted there. |
| DiscretizedAssets.DiscretizedAsset.Reset | ql/discretizedasset.hpp:221-227 | Sets the starting values and adjusts them at once, which for an option moves the underlying to its start. |
| DiscretizedAssets.DiscretizedAsset.MandatoryTimesNonNegative | ql/discretizedasset.hpp:229-238 | The mandatory times of options nested to any depth, with sorted schedules over a base asset with non-negative times, are non-negative. |
| DiscretizedAssets.DiscretizedAsset.MandatoryTimesOfStack | ql/discretizedasset.hpp:229-238 | The mandatory times are exactly the times of the base asset and the non-negative exercise times, American ones included, of the option and of every option below it. |
| DiscretizedAssets.DiscretizedAsset.DatesLookedUp | ql/discretizedasset.cpp:38-45 | A grid serves a stack of options with sorted schedules if and only if it holds every non-negative date of those in it that are not American. |
| DiscretizedAssets.DiscretizedAsset.GridServesExercise | ql/discretizedasset.hpp:215-218 | On a grid that holds the retained mandatory times no exercise date of the option, or of any option below it, fails to be looked up, when no time is lost to zero. |
| DiscretizedAssets.DiscretizedAsset.OwnGridsServeExercise | ql/discretizedasset.hpp:229-238 | The grids that the constructors build from an option's own mandatory times are accepted; the two-argument one serves it and every option below it if and only if no exercise date is missed next to zero, and both do when no two different times are close, zero is not listed, or no positive time is below the square of the tolerance. |
| Observers.Market.NotifyObservers | ql/patterns/observable.cpp:57-86 | The cascade over an acyclic graph terminates and clears the caches of exactly the objects that depend on the notifier, although lazy objects forward only once. |
| Observers.Market.Update | ql/patterns/lazyobject.hpp:102-116 | An update clears the object and everything that depends on it, and nothing else, for links, moving curves and lazy objects alike. |
| Observers.Market.SetValue | ql/utilities/observablevalue.hpp:77-82 | Changing an observed value leaves every remaining cache equal to what it would be computed to. |
| Observers.Market.LinkTo | ql/handle.hpp:131-143 | Relinking clears exactly the dependents of the link when target or flag change, does nothing when they do not, and keeps all caches coherent. |
| Observers.Market.Relink | ql/handle.hpp:135-140 | Unregistering from the old target and registering with the new one leaves the observer sets in step with the links. |
| Observers.Market.ReferenceDate | ql/termstructure.cpp:48-55 | The date returned, cached or not, is the stored evaluation date advanced by the settlement days of the curve. |
| Observers.SettlementMovesDate | ql/termstructure.cpp:48-55 | Where days are added, two curves on the same evaluation date have dates that differ by their settlement days. |
| Observers.LazyOfSources | ql/patterns/lazyobject.hpp:145-156 | An object over observable values is worth what is computed from their values in the order of its inputs. |
| Observers.Market.Read | ql/patterns/lazyobject.hpp:145-156 | What is read is what recomputation from scratch would give whenever every lazy object on the way is notified of everything changeable that it reads; reading never clears a cache. |
| Observers.Market.ReadLazy | ql/patterns/lazyobject.hpp:145-156 | A lazy object returns its cached results, or calculates and keeps them, and then everything it hears from has calculated too. |
| Observers.Market.PerformCalculations | ql/patterns/lazyobject.hpp:145-156 | Calculating an object leaves everything it read calculated, so that later changes reach it. |
| Observers.Market.WarmIfCalculated | ql/patterns/lazyobject.hpp:102-106 | Everything below a calculated object is calculated, so that the forwarding condition never stops a notification that matters. |
| Observers.Market.CachesKept | ql/patterns/observable.cpp:57-86 | A change that clears the dependents of the changed object leaves every other cached value and reference date correct. |
| Observers.ColdAfterRelinkAndClear | ql/handle.hpp:131-143 | After a relink and its notification no object that depends on a cleared lazy object is left calculated. |
| Observers.DependentsKept | ql/handle.hpp:135-140 | Whatever depended on a link still depends on it after relinking. |
| Observers.NewDependents | ql/handle.hpp:135-140 | Relinking adds dependencies only through the link. |
| Observers.TruthKept | ql/handle.hpp:50-51 | An object keeps its value when something changes that it does not read, directly or through others. |
| Observers.SoundKept | ql/handle.hpp:50-51 | It also keeps the property that all lazy objects below it are notified of everything changeable that they read. |
| Observers.SoundReadsNothingElse | ql/handle.hpp:50-51 | A lazy object with this property that is not notified of a change does not read what changed. |
| Observers.ReadersAreNotified | ql/quotes/eurodollarfuturesquote.cpp:37-39 | If every link below an object is an observer, it is notified of everything that it reads, through each of its inputs. |
| Observers.ObservingLinksAreSound | ql/handle.hpp:64-69 | Such an object is read as if nothing were cached: only links that do not observe can make a read go wrong. |
| Observers.ReadChangeRead | ql/patterns/lazyobject.hpp:145-156 | Reading it, changing any source and reading again yields the value before and the value after the change. |
| Observers.TruthRises | ql/patterns/lazyobject.hpp:145-156 | Where everything read is added up, a larger value of a source raises the value of everything that reads it, on whatever path, and lowers nothing. |
| Observers.CompleteHasValue | ql/handle.hpp:146-162 | An object has a value if and only if no link that it reads is empty. |
| Observers.ReadersMustBeNotified | ql/patterns/lazyobject.hpp:102-116 | For whatever is computed from whatever values, a lazy object never keeps a stale result when a source changes if and only if it is notified of the source in case it has a value and reads the source. |
| Observers.ReregisteredObservers | ql/handle.hpp:135-140 | The two registration calls produce the observer sets of the relinked graph. |
| Observers.ReadMissedChange | ql/handle.hpp:58-73 | A calculated object that is not notified of a value returns its cached result after the value has changed; if the result was right it still is when the object does not read the value, and it is wrong when it reads a larger one and everything is added up. |
| Observers.ReadThroughBackdoor | ql/handle.hpp:58-73 | An object that reads a value only through an unregistered link serves stale results in this way, whatever the new value. |
| Fixings.Index.AddFixings | ql/index.hpp:89-133 | The loop over the batch commits the declarative merge whether or not an error follows; it reports the last invalid fixing if there is one, otherwise the last conflicting one with the value kept for its date, and nothing else. |
| Fixings.Index.AddEntry | ql/index.hpp:103-121 | One entry is stored, skipped as close to the stored value, or counted as a conflict; reading it inserts a null first. |
| Fixings.Index.AddFixing | ql/index.cpp:24-31 | A single fixing is a batch of one. |
| Fixings.MergedStep | ql/index.hpp:102-122 | One more entry turns the merge of a batch into the merge of the longer batch. |
| Fixings.MergeTouchesSuppliedDates | ql/timeseries.hpp:95-105 | The key set grows by exactly the supplied dates, invalid ones included, and lookups of other dates do not change. |
| Fixings.StoredValuesSurvive | ql/index.hpp:104-107 | Without overwriting, a stored non-null value survives every batch. |
| Fixings.NotSupplied | ql/index.hpp:102-122 | A date that is not supplied keeps its value, and looking up any date after the merge gives its survivor. |
| Fixings.LastInvalid | ql/index.hpp:117-121 | The reported position holds an invalid date and none follows it; none is reported exactly when all dates are valid. |
| Fixings.LastConflict | ql/index.hpp:112-116 | A reported position is a conflict; none is reported exactly when no entry conflicts. |
| Fixings.ConflictWithStored | ql/index.hpp:108-115 | A fixing for a date with a stored value and no earlier fixing in the batch conflicts if and only if it is not close to the stored value. |
| Fixings.NoConflict | ql/index.hpp:102-116 | Overwriting never conflicts, and neither does an invalid date nor a date without a value. |
| Fixings.OrdinaryValuesCount | ql/utilities/null.hpp:53-59 | The null value is the largest single-precision number; no value of ordinary size is taken for it. |
| Fixings.MergeAppend | ql/index.hpp:102-122 | Merging two batches one after the other is merging their concatenation. |
| Fixings.AcceptedValueIsClose | ql/index.hpp:108-111 | In a batch without errors every supplied value is the one kept for its date or close to it. |
| Fixings.ReaddingIsNoOp | ql/index.hpp:102-122 | Adding an error-free batch of non-null fixings again without overwriting changes nothing and raises no error. |
| Prices.LastValueWins | ql/timeseries.hpp:63-68 | Building a series from parallel sequences keeps the last value given for a date. |
| Prices.SeriesFromItsParts | ql/timeseries.hpp:288-304 | A series is rebuilt from its own dates and values. |
| Prices.ComponentOfSeries | ql/prices.cpp:144-150 | Projecting commutes with building the series, repeated dates included. |
| Prices.ExtractAfterMake | ql/prices.cpp:104-150 | Extracting a component of a made series gives the series of the corresponding input column. |
| Prices.MakeSeries | ql/prices.cpp:104-130 | Fails exactly when the five sizes differ; otherwise every date holds the opening, closing, high and low price of its last row. |
| Prices.ExtractValues | ql/prices.cpp:132-142 | The values come out in the order of the dates. |
| Prices.ExtractComponent | ql/prices.cpp:144-150 | The dates and values extracted separately fit together to a series with the same dates and, at each, the requested price. |
| ExchangeRates.ExchangeMatchesRate | ql/exchangerate.cpp:25-48 | A tree of rates of any depth exchanges its source by multiplying and its target by dividing by the stored rate, and refuses every other currency. |
| ExchangeRates.ExchangeMultiplies | ql/exchangerate.cpp:25-48 | A rate of any depth multiplies an amount in its source by the stored rate and divides one in its target by it. |
| ExchangeRates.ExchangeRoundTrip | ql/exchangerate.cpp:25-48 | Exchanging there and back returns the original amount. |
| ExchangeRates.ChainIsWellFormed | ql/exchangerate.cpp:50-77 | Chaining succeeds exactly when the rates share a currency, and the result has two different ends exactly when they share only one. |
| ExchangeRates.ChainExchangesByItsRate | ql/exchangerate.cpp:25-77 | A chained rate exchanges every amount by the rate it stores, and refuses all other currencies, if and only if its two rates share exactly one currency. |
| ExchangeRates.SharingBothMisleads | ql/exchangerate.cpp:57-60 | Two rates between the same two currencies chain to a rate from a currency to itself that accepts an amount it should refuse. |
| ExchangeRates.ChainLeads | ql/exchangerate.cpp:57-75 | In each of the four orientations the chained rate leads from the outer currency of one to that of the other by the product of the oriented rates. |
| ExchangeRates.BracketingsAgree | ql/exchangerate.cpp:50-77 | Along a path of rates over distinct currencies, each in either orientation, every bracketing of the chain has the same source, target and rate. |
| ExchangeRates.PathRateSplit | ql/exchangerate.cpp:57-75 | The rate of a path is the product of the rates of its two parts. |
| ExchangeRates.ChainSwapped | ql/exchangerate.cpp:50-77 | Swapping the arguments swaps source and target and inverts the rate. |
| ExchangeRates.MirrorInverts | ql/exchangerate.cpp:50-77 | Reversing the path and mirroring the bracketing swaps source and target and inverts the rate. |
| RateManagers.HashIsUnique | ql/currencies/exchangeratemanager.cpp:89-98 | Below 1000 the key of a pair of codes determines the unordered pair, and mentions exactly its two codes. |
| RateManagers.FetchedRate | ql/currencies/exchangeratemanager.cpp:194-203 | A fetched rate is a rate between the two requested currencies, in some orientation. |
| RateManagers.FetchDecides | ql/currencies/exchangeratemanager.cpp:194-203 | A rate is fetched if and only if some entry quotes the pair and is valid at the date, and it is the first valid one in its list. |
| RateManagers.DirectLookupDecides | ql/currencies/exchangeratemanager.cpp:64-65 | A lookup restricted to direct quotes succeeds if and only if an entry of the pair is valid at the date, whatever the links. |
| RateManagers.ExchangeRateManager.Add | ql/currencies/exchangeratemanager.cpp:45-50 | Any added rate takes precedence between its currencies within its dates, and every other lookup is unchanged; a well-formed one keeps the repository well-formed. |
| RateManagers.ExchangeRateManager.Search | ql/currencies/exchangeratemanager.cpp:148-192 | The loop with recursion and swallowed errors computes the search and terminates. |
| RateManagers.RoundDecides | ql/currencies/exchangeratemanager.cpp:161-187 | One round of the loop succeeds if and only if a route of permitted currencies goes through the two currencies of its key. |
| RateManagers.RoundIsSound | ql/currencies/exchangeratemanager.cpp:164-185 | The rate that a round returns is the product of the quotes along such a route. |
| RateManagers.SearchTakesLeastKey | ql/currencies/exchangeratemanager.cpp:161-187 | Without a quote of the pair the search returns what it finds through the least key from which the target can be reached. |
| RateManagers.KeysInOrder | ql/currencies/exchangeratemanager.cpp:89-92 | Keys are ordered by the smaller code of their pair and then by the larger one, and do not depend on the order of the pair. |
| RateManagers.SmartLookupIsSound | ql/currencies/exchangeratemanager.cpp:148-192 | A rate found by the search chains quotes along a route of distinct permitted currencies and equals the product of the oriented quotes. |
| RateManagers.SmartLookupIsComplete | ql/currencies/exchangeratemanager.cpp:161-187 | Whenever a route of permitted currencies exists the search finds a rate. |
| RateManagers.WalkToRoute | ql/currencies/exchangeratemanager.cpp:157-159 | Forbidding visited currencies loses nothing: every walk of quotes contains a route without repetitions. |
| RateManagers.SmartLookupDecides | ql/currencies/exchangeratemanager.cpp:148-192 | The search succeeds if and only if some walk of quotes valid at the date connects the currencies. |
| RateManagers.LookupConnects | ql/currencies/exchangeratemanager.cpp:52-82 | A rate looked up, directly, by triangulation or by search, connects exactly the two currencies asked for. |
| Triangulations.LookupFollowsLinks | ql/currencies/exchangeratemanager.cpp:52-82 | A rate that was looked up is the product of the oriented quotes along a walk that leaves a triangulated source through its link, and that one through its own, and enters a triangulated target likewise. |
| Triangulations.LookupDecides | ql/currencies/exchangeratemanager.cpp:52-82 | With links nested to any depth, a lookup between different currencies succeeds if and only if such a walk of quotes valid at the date exists. |
| Triangulations.WalksChain | ql/currencies/exchangeratemanager.cpp:70-78 | Chaining the rates of two walks that meet gives the rate of the joined walk. |
| Roundings.RoundingError | ql/math/rounding.cpp:29-67 | Every kind of rounding errs by at most one unit in the last place, and to the closest with digit five by at most half of one. |
| Roundings.Pow10Adds | ql/math/rounding.cpp:34 | The scale of a precision is ten to that power, also for negative precisions: it turns sums of precisions into products. |
| Roundings.DecimalUnit | ql/math/rounding.cpp:34 | One more decimal place makes the largest error a tenth of what it was; with none it is one, or half of one to the closest. |
| Roundings.OneDecimal | ql/math/rounding.cpp:40-66 | Concrete values rounded to one decimal place, and to tens. |
| Roundings.RoundedIsWhole | ql/math/rounding.cpp:36-67 | A rounded value is a whole number of units of its precision. |
| Roundings.RoundingIsDetermined | ql/math/rounding.cpp:40-66 | For every digit the result is the one number of units that the kind of rounding admits, with the sign of the value: below for truncation, above for rounding up, and within the digit's threshold otherwise, where no digit below zero or above ten makes a difference to zero or ten; `Floor` and `Ceiling` truncate negative and non-negative values respectively. |
| Roundings.RoundingTwice | ql/math/rounding.cpp:29-67 | A rounded value is left alone when the rounding digit is positive or not used. |
| Roundings.RoundingSettles | ql/math/rounding.cpp:29-67 | It is left alone for all values only then. |
| Moneys.ConversionRoundsWorth | ql/money.cpp:34-41 | Conversion succeeds exactly when a rate can be looked up; the result is the rounded exact worth, or the amount itself in its own currency. |
| Moneys.ConversionFollowsWalk | ql/money.cpp:34-41 | The converted value is the amount times the product of the quotes along a walk through the nested links, valid at the date of the settings, rounded by the convention of the target currency. |
| Moneys.ConversionDecides | ql/money.cpp:34-41 | A conversion between different currencies succeeds if and only if such a walk exists. |
| Moneys.ConversionByQuote | ql/money.cpp:34-41 | With a quote of the pair, an amount in its source is multiplied by its rate and one in its target divided by it, and then rounded. |
| Moneys.ConversionError | ql/money.cpp:34-48 | A conversion errs by at most one rounding, and not at all in the same currency. |
| Moneys.AutomatedTotal | ql/money.cpp:58-61 | In automated mode a sum of any length is in the first currency and differs from the exact one by at most one rounding per foreign addend. |
| Moneys.AutomatedTotalIsSum | ql/money.cpp:58-61 | In automated mode the sum is the first amount plus the separately rounded values of the others. |
| Moneys.AutomatedOrder | ql/money.cpp:58-61 | In automated mode the order of the later addends does not matter. |
| Moneys.SameCurrencyTotal | ql/money.cpp:51-52 | Amounts of one currency add up exactly in every mode. |
| Moneys.BaseTotal | ql/money.cpp:53-57 | In base-currency mode a sum over different currencies is in the base currency and differs from the exact one by at most one rounding per amount outside the base currency. |
| Moneys.BaseTotalFromBase | ql/money.cpp:53-57 | Once the running sum is in the base currency it stays there, with one rounding per foreign addend. |
| Moneys.SumOfPermutation | ql/money.cpp:58-61 | Sums of values do not depend on their order. |
| MoneyObjects.OperatorsAlign | ql/money.cpp:50-156 | Addition, subtraction, equality and both orders convert at most once, to one common currency, and then agree with the operation on the values; they fail together, with the same error. |
| MoneyObjects.TrichotomyAligned | ql/money.cpp:104-156 | In one currency or in base-currency mode exactly one of less, equal and greater holds, precisely when the operands can be brought together. |
| MoneyObjects.QuoteMirrors | ql/money.cpp:34-41 | A pair of currencies with a quote of its own converts there and back by inverse factors. |
| MoneyObjects.EqualityIsSymmetricWhenExact | ql/money.cpp:114-117 | In automated mode equality of amounts in two currencies that convert into each other is symmetric, for all amounts, if and only if neither currency rounds and the two conversions are inverse to each other. |
| MoneyObjects.ComparisonsAreConsistentWhenExact | ql/money.cpp:104-156 | In automated mode exactly one of less, equal and greater holds for all amounts if and only if, besides, the conversion factor is positive. |
| MoneyObjects.QuotedEqualityIsSymmetric | ql/money.cpp:104-156 | For a pair with a positive quote of its own only rounding matters: both hold if and only if neither currency rounds. |
| MoneyObjects.RoundingBreaksSymmetry | ql/money.cpp:34-41 | Whatever the kind of rounding, some amount equals another one way around and not the other. |
| RouteExamples.RoutesBreakSymmetry | ql/currencies/exchangeratemanager.cpp:157-187 | Concrete quotes for which the search goes through two other currencies one way and through one the other way: without any rounding, converting there and back doubles an amount and equality depends on the order of the operands. |
| MoneyObjects.RoundedEqualityDependsOnOrder | ql/money.cpp:114-117 | With rounding, equality in automated mode is not symmetric: a concrete pair is equal one way around only. |
| MoneyObjects.Money.Convert | ql/money.cpp:34-41 | The object is replaced by its rounded conversion, or left alone on failure. |
| MoneyObjects.Money.ToBase | ql/money.cpp:43-46 | Fails exactly without a base currency or a rate; otherwise the object is converted to the base currency. |
| MoneyObjects.Money.AddAssign | ql/money.cpp:50-66 | The object becomes the sum; on failure it is unchanged, except that in base-currency mode it has already been converted when the other operand has no rate. |
| MoneyObjects.Money.SubtractAssign | ql/money.cpp:68-84 | The object becomes the difference, with the same behaviour on failure. |
| Instruments.Instrument.NPV | ql/instrument.hpp:186-190 | Whatever other instruments did with the shared engine in between, an instrument that overwrites all arguments gets zero when expired, its cached value when calculated, and otherwise the error of its validation or what the engine computes from its own terms, the present market and blank results; all other cached results stay correct. |
| Instruments.Instrument.Calculate | ql/instrument.hpp:148-155 | An expired instrument is zeroed, a calculated one keeps its results, any other is priced on top of what the engine's arguments contained; a failure leaves it uncalculated with its old results. |
| Instruments.Instrument.PerformCalculations | ql/instrument.hpp:163-184 | Without an engine, with arguments of another engine, or with arguments that fail validation exactly the corresponding error is raised; otherwise the results are those that the engine computes from its previous arguments overlaid by the terms, the present market and blank results. |
| Instruments.Instrument.SetPricingEngine | ql/instrument.hpp:133-142 | The instrument is registered with exactly the given engine among all engines, other registrations do not change, and every cached result stays correct. |
| Instruments.Engine.ChangeMarket | ql/pricingengine.hpp:69 | A change that reaches the engine clears its instruments, so that no cached result becomes wrong. |
| Instruments.Engine.NotifyObservers | ql/patterns/observable.cpp:57-86 | Every registered instrument is cleared. |
| Instruments.Instrument.ChangeTerms | ql/patterns/lazyobject.hpp:102-116 | An instrument whose own data change and that updates itself serves no stale result. |
| Instruments.LeftoversMatter | ql/instrument.hpp:75-79 | For all engines with given argument fields, results are independent of what was priced before if and only if the instrument overwrites every field. |
| Instruments.LeftoverArguments | ql/pricingengine.hpp:62-73 | A concrete instrument that leaves a field alone is worth five or six depending on which instrument was priced before it. |
| Instruments.Instrument.Report | ql/instrument.hpp:186-190 | What is reported in each of the cases expired, calculated, and not calculated, with success and failure. |
| Instruments.Instrument.ReportRevived | ql/instrument.hpp:148-155 | An instrument that is alive again without a notification reports its cached value if it had calculated before, and otherwise its worth or the error in finding it. |
| Instruments.RevivalNeedsNotification | ql/instrument.hpp:148-155 | For all engines with given argument fields and all states of the market that is its worth if and only if it had not calculated before. |
| Instruments.Instrument.ReportExpiredThenRevived | ql/instrument.hpp:148-155 | For every engine and all terms, an instrument asked while expired goes on reporting zero, which is right if and only if it is worth zero. |
| Instruments.RevivedSilently | ql/instrument.hpp:148-155 | A concrete instrument worth three that reports zero for this reason. |
| DerivativeCalculators.CoefficientsExpandCubic | test-suite-adjoint/adjointeuropeanoptionportfolioimpl.hpp:148-161 | The coefficients used for `Forward` are those of the first three powers of the parameter in the value of a cubic along a curve, for every cubic, curve and parameter. |
| DerivativeCalculators.SparseCoefficient | test-suite-adjoint/adjointeuropeanoptionportfolioimpl.hpp:178-224 | Along a direction with at most two entries, followed by zero directions, the coefficients are the gradient, half the quadratic and a sixth of the cubic form of those entries. |
| DerivativeCalculators.CalculateFirst | test-suite-adjoint/adjointeuropeanoptionportfolioimpl.hpp:148-161 | Result i is the sign times the i-th first derivative. |
| DerivativeCalculators.CalculateSecond | test-suite-adjoint/adjointeuropeanoptionportfolioimpl.hpp:178-191 | Result i is the sign times the i-th pure second derivative, whatever the mixed derivatives are. |
| DerivativeCalculators.CalculateThird | test-suite-adjoint/adjointeuropeanoptionportfolioimpl.hpp:210-224 | Result i is the sign times the i-th pure third derivative, whatever the mixed derivatives are. |
| DerivativeCalculators.CalculateMixedSecond | test-suite-adjoint/adjointeuropeanoptionportfolioimpl.hpp:246-276 | Result i is the sign times the mixed derivative in the variables i and n + i, for every symmetric Hessian. |
| DerivativeCalculators.CalculateMixedThird | test-suite-adjoint/adjointeuropeanoptionportfolioimpl.hpp:299-338 | Result i is the sign times the third derivative once in variable i and twice in variable n + i, for every symmetric third-order tensor. |
| DerivativeCalculators.MixedSecond | test-suite-adjoint/adjointeuropeanoptionportfolioimpl.hpp:254-276 | One iteration recovers the mixed derivative by polarisation and leaves the direction vector zero. |
| DerivativeCalculators.MixedThird | test-suite-adjoint/adjointeuropeanoptionportfolioimpl.hpp:307-337 | One iteration recovers the mixed derivative from three directional derivatives and leaves the direction vector zero. |
| DerivativeCalculators.FirstDerivative | test-suite-adjoint/adjointeuropeanoptionportfolioimpl.hpp:154-160 | One iteration reads off the derivative and leaves the direction vector zero. |
| DerivativeCalculators.SecondDerivative | test-suite-adjoint/adjointeuropeanoptionportfolioimpl.hpp:184-190 | One iteration reads off the derivative, the second direction being zero, and leaves the direction vector zero. |
| DerivativeCalculators.ThirdDerivative | test-suite-adjoint/adjointeuropeanoptionportfolioimpl.hpp:216-223 | One iteration reads off the derivative, the later directions being zero, and leaves the direction vector zero. |
| Matrices.SumsSwap | ql/math/matrix.hpp:546-552 | A double sum can be taken in either order. |
| Matrices.ProductAssociates | ql/math/matrix.hpp:539-555 | The matrix product is associative for all sizes that fit. |
| Matrices.PowersCommute | test-suite-adjoint/adjointmatricesimpl.hpp:126-130 | A matrix commutes with its powers. |
| Matrices.Multiply | ql/math/matrix.hpp:539-555 | Fails exactly when the sizes do not fit; otherwise the triple loop accumulates the product. |
| Matrices.AddInPlace | ql/math/matrix.hpp:234-243 | Fails and changes nothing exactly when the sizes differ; otherwise the left operand becomes the sum, also when both are the same object. |
| Matrices.ScaleInPlace | ql/math/matrix.hpp:256-260 | Every entry is multiplied by the factor. |
| MatrixPolynomials.Evaluate | test-suite-adjoint/adjointmatricesimpl.hpp:118-132 | The loop that accumulates the result and the running power computes the sum of `a[k]` times the k-th power. |
| MatrixPolynomials.EntryOfCombination | test-suite-adjoint/adjointmatricesimpl.hpp:117-118 | Entry by entry that sum is the sum of the coefficients times the entries of the powers. |
| MatrixPolynomials.CombinationShifts | test-suite-adjoint/adjointmatricesimpl.hpp:126-130 | Multiplying a polynomial by its matrix moves every coefficient up by one power. |
| MatrixPolynomials.DerivativeTimesMatrix | test-suite-adjoint/adjointmatricesimpl.hpp:469-478 | The polynomial of the derivative's coefficients times the matrix is the sum of `k * P[k]` times the k-th power. |
| MatrixPolynomials.AnalyticalDerivative | test-suite-adjoint/adjointmatricesimpl.hpp:469-478 | The loop that fills the derivative's coefficients, the evaluation and the product compute that sum. |
| MatrixPolynomials.PolynomialDerivative | test-suite-adjoint/adjointmatricesimpl.hpp:451-478 | That sum is the derivative at one of the polynomial of `x * A`: for every x the two differ from the tangent by the square of `x - 1` times a matrix polynomial. |

## Left out

- DiscretizedAssets.DiscretizedAsset.Initialize: a time that is close to a node without being equal to it is excluded, and so is initialising an asset a second time; the guards would treat the asset as already adjusted.
- DiscretizedAssets.DiscretizedAsset.Initialize: a failing initialisation is modelled as changing nothing, while the library leaves the time and the method already set and the underlying possibly rolled back.
- DiscretizedAssets.TreeLattice.PartialRollback: an asset that was partially rolled has to be adjusted before it is rolled on, as the library's comments ask; otherwise the adjustments of that node would be lost. Grids are those whose nodes are pairwise not close, on which the closeness guards tell nodes apart; the convertible-bond lattice, which rolls further arrays back with the values, and parallel loops are left out.
- DiscretizedAssets.TreeLattice.Rollback: like the partial rollback, starts from an asset that has been adjusted at its node.
- DiscretizedAssets.PriceOption: starts from a time that is a node or not close to one, and from an option that has not been initialised before, as `Initialize` does.
- DiscretizedAssets.DiscretizedAsset.PostAdjustValues: is called after the pre-adjustment at the same time, as `adjustValues` and the exercise step do.
- TimeGrids.TimeGrid.Uniform: `steps == 0` divides by zero in the library and is excluded.
- TimeGrids.TimeGrid.WithSteps: an empty list of times, and a list of zeros together with `steps == 0`, dereference the end of an empty vector in the library and are excluded.
- TimeGrids.TimeGrid.FromTimes: an empty list of times is excluded for the same reason.
- Assets that neither are options or bonds nor adjust their values by a function of time and values, several options on one underlying, and assets whose reset does not adjust.
- Floating-point rounding, overflow, infinities and NaN: numbers are exact reals; the tolerance of the comparisons is the concrete one.
- Observers.Market.Read: a lazy object that cannot be calculated yields no value and stays uncalculated; which exception is raised is left out. Objects are identified by numbers in one registry, and acyclicity is given by a rank.
- Frozen lazy objects, deferred or disabled notifications, the thread-safe observer implementation and exceptions thrown by observers.
- The `calculated_` flag that is set before the calculation, which only matters for cyclic bootstraps.
- Fixings.Index.AddFixings: dates and values have equal lengths; the upper-casing of index names and the notification of the index are left out.
- RateManagers.ExchangeRateManager.Search: rates in the repository are non-zero, between different currencies and, if chained, chained properly; currencies are identified by a numeric code below 1000; the empty list that a lookup inserts for an unknown pair, the known rates added at construction, and the change of both by `clear` are left out.
- RateManagers.LookupConnects: links that lead back in a circle are excluded, on which the library's recursion does not end. When both parts of a triangulated lookup fail the error reported is that of the first, while C++ leaves the order open.
- Division of amounts, `close` and `close_enough` of amounts, and multiplication by numbers: each is the conversion that all operators share, followed by one operation on the values, and what is left is division by zero, which floating point does not treat as an error. Formatting.
- Instruments.Instrument.NPV: the instrument's own observers, the additional results by name, frozen instruments and engines that throw after writing some results are left out; the data an engine observes are one number.
- DerivativeCalculators.CoefficientsExpandCubic: the tape is its derivatives up to the third order at one point; recording, the reverse sweep and the reverse calculators are left out.
- MatrixPolynomials.Evaluate: matrices are square; for others the library raises an error in the first product or writes outside the diagonal.
- Interest rates, events, cash flows, stochastic processes, payoffs, calendars, parametric exercises and the numerical tests that compare with finite differences.
