# Car rental controller, modelled in Dafny

This project models `CarRentalController`, an in-memory car-rental service.
It keeps two insertion-ordered lists: the fleet of cars and the ledger of
rental records. Three operations change that state:

- `addCar` appends a car.
- `rentCar` marks the first car with the given id as unavailable and appends an open rental record.
- `returnCar` closes the first open record with the given rental id. It sets that record's end date and a fee of 50 per elapsed day, then makes the first car with the record's car id available again.

Every other endpoint is a read-only filter or aggregate over the two lists:

- a car by id;
- the available cars;
- the available cars of one model (ignoring case) and year;
- the rentals of one car or one customer;
- a rental by id;
- the total fees, and the fees of one customer;
- the days one car has been rented;
- the most popular model.

Layout, one module per file:

- `sequences.dfy` (`Sequences`): the stream operations the controller uses. `FirstIndex` and `FindFirst` stand for `filter(p).findFirst()`, `Filter` for `filter(p).collect(toList())`. Also the subsequence relation and lemmas about them.
- `fleet.dfy` (`Fleet`): the `Car` value, lookup by id, the availability filters and ASCII case-insensitive comparison.
- `ledger.dfy` (`Ledger`): the `RentalRecord` value, the fee rule, the record filters and the fee and duration sums.
- `popularity.dfy` (`Popularity`): the most-popular-model query.
- `rental.dfy` (`Rental`): the three state changes as functions on a `State` holding the two lists, the invariant they keep, and lemmas about rent/return sequences and fees.
- `controller.dfy` (`Controller`): the class `CarRentalController`. It has fields `cars` and `records`, and methods `AddCar`, `RentCar` and `ReturnCar` that rewrite those fields in place. Each method is proved equal to the matching `Rental` function and to keep the invariant `Rental.Valid`. A client method, `RoundTripScenario`, adds a car, rents it on day 0 and returns it on day 4. Its assertions prove that the fee is 200.

Representation:

- `Car` and `RentalRecord` are datatypes.
- In the source, a car or record is mutated through the reference the list holds. Here that becomes an update of the sequence at the first-match index, which is the index of the object `getCarById` or the `returnCar` search returns. This is exact as long as no object occupies two positions of a list; see "## Left out" for the aliasing this does not capture.
- Dates are integer day numbers, so `ChronoUnit.DAYS.between(a, b)` is `b - a`.
- Fees are integers. The only fees the code ever sets are `0` and `days * 50`, so they are exact.
- `getAllRentalRecords` is the `records` field itself.
- The read-only endpoints are the functions of `Fleet`, `Ledger` and `Popularity`, applied to `cars` and `records`.

The invariant `Rental.Valid`, kept by all three operations, has three parts:

- every open record's car id resolves, by first match, to an unavailable car;
- no two open records share a car id;
- every fee comes from its dates: zero while open, `50 * (end - start)` once closed.

## Behaviour of the code worth knowing

- Duplicate ids are never rejected. `addCar` appends a car whose id is already taken, and that car is then invisible to every id lookup (`Rental.AddCarLookup`). `rentCar` appends a record whose rental id is already in use.
- Failures are silent: a failed rent or return changes nothing and reports nothing. The methods of `Controller.CarRentalController` return a flag saying whether anything changed. The source returns `void`.
- An unavailable car need not be held by an open record: `addCar` accepts unavailable cars, and a car behind an earlier one with the same id is never flipped. The other direction holds and is part of `Rental.Valid`: an open record always points to an unavailable car.
- Return dates are not validated. A return before the start date gives a negative fee (`Ledger.RentalFee`).
- `getMostPopularModel` breaks ties by `HashMap` iteration order, not by first occurrence.
- Because rental ids may repeat, `returnCar` closes the EARLIEST open record with the given id. The round trip `Rental.RentThenReturn` therefore requires that no open record already carries the rental id.

## Model

| member | source | states |
|---|---|---|
| `Sequences.FirstIndex` | Java/CarRentalController.java:23-26 | the index returned holds the first element satisfying the predicate, every earlier element fails it, and none is returned exactly when no element satisfies it |
| `Sequences.FindFirst` | Java/CarRentalController.java:148-151 | the value returned is absent exactly when no element matches, and otherwise is the element at the first matching position |
| `Sequences.Filter` | Java/CarRentalController.java:32-34 | every element kept satisfies the predicate |
| `Sequences.FilterKeepsOrder` | Java/CarRentalController.java:32-34 | the filtered list is a subsequence of the input: the original order is kept |
| `Sequences.FilterCounts` | Java/CarRentalController.java:32-34 | the result keeps every copy of each element satisfying the predicate and no copy of any other |
| `Sequences.FilterUnique` | Java/CarRentalController.java:32-34 | any subsequence with those multiplicities is the filter, so `Filter`, `FilterKeepsOrder` and `FilterCounts` together determine the result completely |
| `Sequences.FilterAppend` | Java/CarRentalController.java:130-131 | filtering a concatenation is the concatenation of the filters |
| `Sequences.SubsequenceLength` | Java/CarRentalController.java:32-34 | a filtered list is never longer than the list it came from |
| `Sequences.FirstIndexStable` | Java/CarRentalController.java:45 | changing elements without changing which of them match leaves the first match where it was |
| `Sequences.FirstIndexAppend` | Java/CarRentalController.java:17 | appending an element never moves an existing first match, and is the first match only when nothing before matched |
| `Fleet.CarIndex` | Java/CarRentalController.java:22-27 | the position of the first car with the id, or none exactly when no car has it |
| `Fleet.CarById` | Java/CarRentalController.java:22-27 | none exactly when no car has the id, and otherwise the first car carrying it |
| `Fleet.CarIndexAfterUpdate` | Java/CarRentalController.java:45 | marking a car available or unavailable changes no id lookup |
| `Fleet.CarIndexAfterAppend` | Java/CarRentalController.java:17 | after adding a car, an id that used to resolve still resolves to the same car, and the new car is found only for an id nothing earlier carries |
| `Fleet.AvailableCars` | Java/CarRentalController.java:31-35 | exactly the available cars, with their multiplicities, in insertion order |
| `Fleet.AvailableByModelYear` | Java/CarRentalController.java:119-125 | exactly the available cars whose model equals the given one ignoring case and whose year is equal, in insertion order |
| `Fleet.ByModelYearWithinAvailable` | Java/CarRentalController.java:119-125 | the model-and-year result is a subsequence of the available-cars result |
| `Fleet.EqualsIgnoreCaseCharByChar` | Java/CarRentalController.java:122 | `EqualsIgnoreCase`, defined as equal case-folded forms, holds exactly when the lengths agree and every pair of characters at the same position agrees after folding, which is how `equalsIgnoreCase` compares |
| `Ledger.RentalFee` | Java/CarRentalController.java:63-64 | the fee is 50 times the elapsed days; it is zero exactly for a same-day return and negative exactly when the end lies before the start |
| `Ledger.RentalById` | Java/CarRentalController.java:147-152 | none exactly when no record has the rental id, and otherwise the first record carrying it, open or closed |
| `Ledger.OpenRentalIndex` | Java/CarRentalController.java:55-58 | the position of the first record that has the rental id and no end date; none exactly when there is no such record |
| `Ledger.RentalsForCar` | Java/CarRentalController.java:82-86 | exactly the records of the car, with their multiplicities, in insertion order |
| `Ledger.RentalsForCustomer` | Java/CarRentalController.java:90-94 | exactly the records of the customer, with their multiplicities, in insertion order |
| `Ledger.SumFeesAppend` | Java/CarRentalController.java:111-115 | the fee total of two lists joined is the sum of their totals |
| `Ledger.SumFeesUpdate` | Java/CarRentalController.java:62-64 | replacing one record changes the fee total by exactly the change in that record's fee |
| `Ledger.SumFeesSplit` | Java/CarRentalController.java:138-143 | splitting the records by any condition splits the fee total into the two parts' totals |
| `Ledger.TotalRentalFees` | Java/CarRentalController.java:111-115 | when fees come from dates, the total fee is the fee total of the closed records alone |
| `Ledger.TotalFeesForCustomer` | Java/CarRentalController.java:138-143 | one customer's fee total plus the fees of all other customers' records is the overall fee total |
| `Ledger.RentalDurationForCar` | Java/CarRentalController.java:129-134 | when fees come from dates, the fees of the car's records are 50 times the duration returned |
| `Ledger.OpenRecordsAddNoFees` | Java/CarRentalController.java:111-115 | when fees come from dates, open records add zero to any fee total |
| `Ledger.TotalFeesAreClosedFees` | Java/CarRentalController.java:111-115 | when fees come from dates, the fee sum of any records equals the fee sum of the closed ones among them |
| `Ledger.CarFeesAreRateTimesDuration` | Java/CarRentalController.java:129-134 | when fees come from dates, the fees of a car's records are 50 times the days summed over the car's closed records, the sum `getRentalDurationForCar` takes |
| `Popularity.ResolvedModels` | Java/CarRentalController.java:99-102 | empty exactly when no record's car id resolves to a car; each model occurs as many times as there are records resolving to a car of that model |
| `Popularity.MostFrequentOf` | Java/CarRentalController.java:103-105 | the chosen candidate occurs at least as often as every other candidate |
| `Popularity.MostPopularModel` | Java/CarRentalController.java:98-107 | none exactly when no record resolves to a car; otherwise a model with at least one rental whose count is at least every model's count |
| `Popularity.TwoCountsBound` | Java/CarRentalController.java:102 | the counts of two different models add up to at most the number of records that resolve to a car |
| `Popularity.MajorityModelIsMostPopular` | Java/CarRentalController.java:98-107 | a model rented in more than half the resolving records is the one returned, whatever the tie-break (three Sedan rentals against one Truck give Sedan) |
| `Rental.AddCar` | Java/CarRentalController.java:16-18 | the car is placed after all existing cars, every existing car keeps its position, and the records are unchanged |
| `Rental.RentCar` | Java/CarRentalController.java:43-48 | if the first car with the id is absent or unavailable, nothing changes; otherwise only that car becomes unavailable, and one open record (no end date, fee 0) with the given ids and start date is appended |
| `Rental.Closed` | Java/CarRentalController.java:62-64 | the record gets the end date and the fee 50 × (end − start), so its fee is derived from its dates; every other field is unchanged |
| `Rental.Released` | Java/CarRentalController.java:66-70 | if no car has the id, nothing changes; otherwise the first car with the id is available afterwards, every other car is unchanged, and no id lookup moves |
| `Rental.ReturnCar` | Java/CarRentalController.java:55-71 | if no open record has the rental id, nothing changes; otherwise only the first such record is closed, with its end date and fee 50 × (end − start), and only the first car with its car id becomes available; closed records are never changed |
| `Rental.InitialValid` | Java/CarRentalController.java:11-12 | the empty controller satisfies the invariant |
| `Rental.HeldAtIndex` | Java/CarRentalController.java:22-27 | a car id is out on rental exactly when its first-match index exists and that car is unavailable |
| `Rental.AddCarLookup` | Java/CarRentalController.java:16-18 | after `addCar`, `getCarById` finds the new car only when no earlier car has its id; every other lookup is unchanged |
| `Rental.AddCarPreservesValid` | Java/CarRentalController.java:16-18 | `addCar` keeps the invariant |
| `Rental.RentPreservesValid` | Java/CarRentalController.java:43-48 | `rentCar` keeps the invariant |
| `Rental.ReturnPreservesValid` | Java/CarRentalController.java:55-71 | `returnCar` keeps the invariant |
| `Rental.RentThenReturn` | Java/CarRentalController.java:43-71 | renting an available car and returning that rental leaves the car list as it was and the ledger grown by one closed record with fee 50 × (end − start), e.g. 150 for days 0 to 3 |
| `Rental.RentTwiceRejected` | Java/CarRentalController.java:44 | after a successful rent, the car cannot be rented again under any rental id: the second call changes nothing |
| `Rental.RentOfHeldCarRejected` | Java/CarRentalController.java:44 | in a valid state, renting a car that an open record holds changes nothing |
| `Rental.ReturnReleasesCar` | Java/CarRentalController.java:66-70 | in a valid state, returning an open rental makes its car rentable again |
| `Rental.ReturnTwiceRejected` | Java/CarRentalController.java:55-60 | when a rental id is open at most once, after a return no open record has it and a second return changes nothing |
| `Rental.RentKeepsTotalFees` | Java/CarRentalController.java:46-47 | renting leaves the total fee unchanged |
| `Rental.RentKeepsDuration` | Java/CarRentalController.java:131 | renting leaves every car's rental duration unchanged |
| `Rental.ReturnAddsItsFee` | Java/CarRentalController.java:62-64 | in a valid state, a return raises the total fee by exactly 50 × (end − start) of the closed record |
| `Controller.CarRentalController.constructor` | Java/CarRentalController.java:11-12 | both lists start empty and the invariant holds |
| `Controller.CarRentalController.AddCar` | Java/CarRentalController.java:16-18 | always answers true, appends the car with no id check, leaves the records alone, and keeps the invariant |
| `Controller.CarRentalController.RentCar` | Java/CarRentalController.java:39-49 | the fields end as `Rental.RentCar` says, the flag tells whether the car was rentable, and the invariant is kept |
| `Controller.CarRentalController.ReturnCar` | Java/CarRentalController.java:53-72 | the fields end as `Rental.ReturnCar` says, the flag tells whether an open record was found, and the invariant is kept |

## Left out

- Spring routing, annotations and request/response binding: HTTP plumbing with no logic.
- `LocalDate.parse` of ISO-8601 strings: dates arrive as day numbers, so a malformed date cannot occur. In the source, `rentCar` calls `setAvailable(false)` (line 45) BEFORE parsing the start date (line 46). A malformed or null start date therefore throws after the car is marked unavailable and before any record is added. That car then can never be returned. The model does not show this partial update. In `returnCar` the end date is parsed before anything changes, so a failure there changes nothing.
- `CarRentalService`, `CarRentalServiceImpl`, `CarRepository` and `RentalRecordRepository`: an empty service and persistence interfaces with no logic.
- `Java/StreamTesting.java`: a console demo of stream operators over hard-coded lists. It has no state to model.
- `getAllRentalRecords` hands out the internal list itself, so callers can alias it. The model returns the list's value (the `records` field), not a shared reference.
- Object aliasing of cars and records: `Car` and `RentalRecord` are values here, while the source shares objects. `addCar` stores the caller's own reference (line 17). `getCarById`, `getAvailableCars`, `getAvailableByModelYear`, `getRentalsForCar`, `getRentalsForCustomer` and `getRentalById` return live objects, and their setters (lines 203-210 and 234-245) change the controller's state with no controller call. When one `Car` object is added twice, both positions share one `available` flag: after `rentCar`, Java's `getAvailableCars` shows neither copy, while the model's second copy stays available. The model captures neither outside mutation nor shared positions.
- Java integer widths: ids and years are 32-bit, day counts and durations 64-bit. They are modelled as unbounded integers. Ids are only compared, and overflow would need vastly more days or records than the controller can hold.
- Floating point: fee sums are `double`. They are modelled as exact integer sums, which are exact in `double` as long as totals stay below 2^53.
- Null references: the model has no null values. In the source, `addCar(null)` does not throw: `ArrayList.add` stores the null and answers true (line 17). The failure comes later, as a `NullPointerException` in every stream query that reaches that element (`car.getId()` at line 24, `Car::isAvailable` at line 33, and so on). A car with a null model makes `getAvailableByModelYear` throw at line 122. A null start date is covered by the `LocalDate.parse` line above.
- Concurrency: the source has no concurrency control, and neither does the model.
- `Popularity.MostPopularModel`: does not say which of several tied models is returned. The source picks by `HashMap` iteration order; the model picks the earliest one among the resolved records.
- `Fleet.AvailableByModelYear`: compares models with ASCII case folding only. Java's `equalsIgnoreCase` also folds non-ASCII letters.
