/**
 * `getMostPopularModel`: maps every rental record to its car through
 * `getCarById`, drops the records whose car is missing, counts the records
 * per model and returns a model with the largest count.
 */
module Popularity {
  import opened Sequences
  import opened Fleet
  import opened Ledger

  /** The record's car id resolves, by first match, to a car of the given model. */
  function ResolvesToModel(cars: seq<Car>, model: string): RentalRecord -> bool
  {
    (r: RentalRecord) => CarById(cars, r.carId).Some? && CarById(cars, r.carId).value.model == model
  }

  /** How many records are counted for `model`: the value `groupingBy(..., counting())` attaches to it. */
  function RentalCount(cars: seq<Car>, records: seq<RentalRecord>, model: string): nat
  {
    |Filter(records, ResolvesToModel(cars, model))|
  }

  /** `RentalCount` unfolded once. */
  lemma RentalCountStep(cars: seq<Car>, records: seq<RentalRecord>, model: string)
    requires records != []
    ensures RentalCount(cars, records, model) ==
      RentalCount(cars, records[1..], model) + if ResolvesToModel(cars, model)(records[0]) then 1 else 0
  {
  }

  /**
   * `map(r -> getCarById(r.getCarId())).filter(Objects::nonNull)`, keeping
   * each surviving car's model: one entry per record that resolves, so that
   * every model occurs as often as it is counted.
   */
  function ResolvedModels(cars: seq<Car>, records: seq<RentalRecord>): (ms: seq<string>)
    ensures ms == [] <==> forall k :: 0 <= k < |records| ==> CarById(cars, records[k].carId).None?
    ensures forall m :: multiset(ms)[m] == RentalCount(cars, records, m)
  {
    if records == [] then []
    else
      var rest := ResolvedModels(cars, records[1..]);
      var ms := match CarById(cars, records[0].carId)
        case None => rest
        case Some(c) => [c.model] + rest;
      assert forall m :: multiset(ms)[m] == RentalCount(cars, records, m) by {
        forall m ensures multiset(ms)[m] == RentalCount(cars, records, m) {
          RentalCountStep(cars, records, m);
        }
      }
      assert forall k :: 1 <= k < |records| ==> records[k] == records[1..][k - 1];
      ms
  }

  /** A candidate occurring in `ms` at least as often as every other candidate. */
  function MostFrequentOf(cands: seq<string>, ms: seq<string>): (best: string)
    requires cands != []
    ensures best in cands
    ensures forall c :: c in cands ==> multiset(ms)[c] <= multiset(ms)[best]
  {
    if |cands| == 1 then cands[0]
    else
      var other := MostFrequentOf(cands[1..], ms);
      assert forall c :: c in cands ==> c == cands[0] || c in cands[1..];
      if multiset(ms)[cands[0]] >= multiset(ms)[other] then cands[0] else other
  }

  /**
   * `getMostPopularModel`: none exactly when no record resolves to a car;
   * otherwise a model whose count is at least every model's count. Which of
   * several tied models is returned is not specified by the source.
   */
  function MostPopularModel(cars: seq<Car>, records: seq<RentalRecord>): (r: Option<string>)
    ensures r.None? <==> forall k :: 0 <= k < |records| ==> CarById(cars, records[k].carId).None?
    ensures r.Some? ==> RentalCount(cars, records, r.value) > 0
    ensures r.Some? ==> forall m :: RentalCount(cars, records, m) <= RentalCount(cars, records, r.value)
  {
    var ms := ResolvedModels(cars, records);
    if ms == [] then None
    else
      var best := MostFrequentOf(ms, ms);
      assert forall m :: m !in ms ==> multiset(ms)[m] == 0;
      Some(best)
  }

  /** Two different values together occur at most as often as the sequence is long. */
  lemma {:induction false} TwoCountsBound(ms: seq<string>, a: string, b: string)
    requires a != b
    ensures multiset(ms)[a] + multiset(ms)[b] <= |ms|
  {
    if ms != [] {
      assert ms == [ms[0]] + ms[1..];
      TwoCountsBound(ms[1..], a, b);
    }
  }

  /**
   * A model rented in more than half of the records that resolve to a car
   * is the one returned, whatever the tie-break rule: three rentals of a
   * Sedan against one of a Truck give the Sedan.
   */
  lemma MajorityModelIsMostPopular(cars: seq<Car>, records: seq<RentalRecord>, model: string)
    ensures 2 * RentalCount(cars, records, model) > |ResolvedModels(cars, records)| ==>
      MostPopularModel(cars, records) == Some(model)
  {
    var ms := ResolvedModels(cars, records);
    if 2 * RentalCount(cars, records, model) > |ms| {
      var r := MostPopularModel(cars, records);
      assert multiset(ms)[model] > 0;
      if r.value != model {
        TwoCountsBound(ms, r.value, model);
      }
    }
  }
}
