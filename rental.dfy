/**
 * The three state-changing operations of the controller, `addCar`,
 * `rentCar` and `returnCar`, as functions from one snapshot of its two
 * lists to the next; the invariant they keep; and what a rental followed by
 * its return amounts to. The class in module Controller is proved to follow
 * these functions.
 */
module Rental {
  import opened Sequences
  import opened Fleet
  import opened Ledger

  /** The controller's two insertion-ordered lists. */
  datatype State = State(cars: seq<Car>, records: seq<RentalRecord>)

  /** The record `rentCar` appends: open, with no fee yet. */
  function OpenRecord(rentalId: int, carId: int, customerId: int, startDate: int): RentalRecord
  {
    RentalRecord(rentalId, carId, customerId, startDate, None, 0)
  }

  /** The guard of `rentCar`: the first car with this id exists and is available. */
  predicate CanRent(s: State, carId: int)
  {
    CarById(s.cars, carId).Some? && CarById(s.cars, carId).value.available
  }

  /** `addCar`: appends the car, with no check on its id; always succeeds. */
  function AddCar(s: State, car: Car): (t: State)
    ensures t.records == s.records
    ensures |t.cars| == |s.cars| + 1 && t.cars[|s.cars|] == car
    ensures forall j :: 0 <= j < |s.cars| ==> t.cars[j] == s.cars[j]
  {
    State(s.cars + [car], s.records)
  }

  /**
   * `rentCar`: when the first car with `carId` is absent or unavailable,
   * nothing changes. Otherwise exactly two things change: that car becomes
   * unavailable and an open record with the given ids and start date is
   * appended. The rental id is not checked against existing records.
   */
  function RentCar(s: State, rentalId: int, carId: int, customerId: int, startDate: int): (t: State)
    ensures !CanRent(s, carId) ==> t == s
    ensures CanRent(s, carId) ==>
      CarIndex(s.cars, carId).Some? &&
      var i := CarIndex(s.cars, carId).value;
      && t.cars == s.cars[i := s.cars[i].(available := false)]
      && t.records == s.records + [OpenRecord(rentalId, carId, customerId, startDate)]
  {
    CarByIdAtIndex(s.cars, carId);
    if CanRent(s, carId) then
      var i := CarIndex(s.cars, carId).value;
      State(s.cars[i := s.cars[i].(available := false)],
            s.records + [OpenRecord(rentalId, carId, customerId, startDate)])
    else
      s
  }

  /** The record as `returnCar` leaves it: its end date set and its fee derived. */
  function Closed(r: RentalRecord, endDate: int): (c: RentalRecord)
    ensures c.endDate == Some(endDate) && FeeDerived(c)
    ensures c.fee == FeePerDay * (endDate - r.startDate)
    ensures c.(endDate := r.endDate, fee := r.fee) == r
  {
    r.(endDate := Some(endDate), fee := RentalFee(r.startDate, endDate))
  }

  /**
   * The cars after `returnCar` makes the first car with `carId`, if any,
   * available again: that car is available, no id lookup moves, and every
   * other car is as it was.
   */
  function Released(cars: seq<Car>, carId: int): (r: seq<Car>)
    ensures |r| == |cars|
    ensures CarIndex(cars, carId).None? ==> r == cars
    ensures CarIndex(cars, carId).Some? ==> r[CarIndex(cars, carId).value].available
    ensures forall j :: 0 <= j < |cars| && CarIndex(cars, carId) != Some(j) ==> r[j] == cars[j]
    ensures forall id :: CarIndex(r, id) == CarIndex(cars, id)
  {
    match CarIndex(cars, carId)
    case None => cars
    case Some(i) =>
      var r := cars[i := cars[i].(available := true)];
      assert forall id :: CarIndex(r, id) == CarIndex(cars, id) by {
        forall id ensures CarIndex(r, id) == CarIndex(cars, id) {
          CarIndexAfterUpdate(cars, i, cars[i].(available := true), id);
        }
      }
      r
  }

  /**
   * `returnCar`: when no open record carries `rentalId`, nothing changes.
   * Otherwise the first such record is closed on `endDate` with the fee for
   * the elapsed days (zero the same day, negative before the start), and the
   * first car with that record's car id, if any, becomes available. Closed
   * records are never touched.
   */
  function ReturnCar(s: State, rentalId: int, endDate: int): (t: State)
    ensures |t.cars| == |s.cars| && |t.records| == |s.records|
    ensures OpenRentalIndex(s.records, rentalId).None? ==> t == s
    ensures OpenRentalIndex(s.records, rentalId).Some? ==>
      var k := OpenRentalIndex(s.records, rentalId).value;
      && t.records == s.records[k := Closed(s.records[k], endDate)]
      && t.cars == Released(s.cars, s.records[k].carId)
    ensures forall j :: 0 <= j < |s.records| && s.records[j].endDate.Some? ==> t.records[j] == s.records[j]
  {
    match OpenRentalIndex(s.records, rentalId)
    case None => s
    case Some(k) =>
      var r := s.records[k];
      State(Released(s.cars, r.carId), s.records[k := Closed(r, endDate)])
  }

  // ---------------------------------------------------------------------
  // The invariant relating open records to car availability
  // ---------------------------------------------------------------------

  /** The first car with this id exists and is out on rental. */
  predicate Held(cars: seq<Car>, carId: int)
  {
    CarById(cars, carId).Some? && !CarById(cars, carId).value.available
  }

  /** Every open record's car id resolves to a car that is unavailable. */
  predicate OpenRentalsHeld(s: State)
  {
    forall k :: 0 <= k < |s.records| && s.records[k].endDate.None? ==> Held(s.cars, s.records[k].carId)
  }

  /** No two open records are for the same car id. */
  predicate OpenRentalsDistinct(records: seq<RentalRecord>)
  {
    forall k, l :: 0 <= k < l < |records| && records[k].endDate.None? && records[l].endDate.None? ==>
      records[k].carId != records[l].carId
  }

  /** What every reachable state satisfies. */
  predicate Valid(s: State)
  {
    OpenRentalsHeld(s) && OpenRentalsDistinct(s.records) && FeesDerived(s.records)
  }

  /** The controller starts with two empty lists. */
  lemma InitialValid()
    ensures Valid(State([], []))
  {
  }

  /** Held, stated on the first-match index. */
  lemma HeldAtIndex(cars: seq<Car>, carId: int)
    ensures Held(cars, carId) <==> CarIndex(cars, carId).Some? && !cars[CarIndex(cars, carId).value].available
    ensures CarById(cars, carId).Some? <==> CarIndex(cars, carId).Some?
  {
    CarByIdAtIndex(cars, carId);
  }

  /** An added car is found by `getCarById` only if no earlier car has its id. */
  lemma {:induction false} AddCarLookup(s: State, car: Car, id: int)
    ensures CarById(AddCar(s, car).cars, id) ==
      if CarById(s.cars, id).Some? then CarById(s.cars, id)
      else if car.id == id then Some(car)
      else None
  {
    var t := AddCar(s, car);
    CarIndexAfterAppend(s.cars, car, id);
    CarByIdAtIndex(s.cars, id);
    CarByIdAtIndex(t.cars, id);
  }

  lemma {:induction false} AddCarPreservesValid(s: State, car: Car)
    requires Valid(s)
    ensures Valid(AddCar(s, car))
  {
    var t := AddCar(s, car);
    forall k | 0 <= k < |t.records| && t.records[k].endDate.None?
      ensures Held(t.cars, t.records[k].carId)
    {
      AddCarLookup(s, car, t.records[k].carId);
    }
  }

  lemma {:induction false} RentPreservesValid(s: State, rentalId: int, carId: int, customerId: int, startDate: int)
    requires Valid(s)
    ensures Valid(RentCar(s, rentalId, carId, customerId, startDate))
  {
    var t := RentCar(s, rentalId, carId, customerId, startDate);
    if CanRent(s, carId) {
      HeldAtIndex(s.cars, carId);
      var i := CarIndex(s.cars, carId).value;
      var n := |s.records|;
      assert s.cars[i].available;
      forall k | 0 <= k < |t.records| && t.records[k].endDate.None?
        ensures Held(t.cars, t.records[k].carId)
      {
        var id := t.records[k].carId;
        CarIndexAfterUpdate(s.cars, i, s.cars[i].(available := false), id);
        HeldAtIndex(s.cars, id);
        HeldAtIndex(t.cars, id);
        if k < n {
          assert t.records[k] == s.records[k];
        }
      }
      forall k, l | 0 <= k < l < |t.records| && t.records[k].endDate.None? && t.records[l].endDate.None?
        ensures t.records[k].carId != t.records[l].carId
      {
        if l == n {
          assert t.records[k] == s.records[k];
          assert Held(s.cars, s.records[k].carId);
        } else {
          assert t.records[k] == s.records[k] && t.records[l] == s.records[l];
        }
      }
      forall k | 0 <= k < |t.records| ensures FeeDerived(t.records[k]) {
        if k < n {
          assert t.records[k] == s.records[k];
        }
      }
    }
  }

  lemma {:induction false} ReturnPreservesValid(s: State, rentalId: int, endDate: int)
    requires Valid(s)
    ensures Valid(ReturnCar(s, rentalId, endDate))
  {
    var t := ReturnCar(s, rentalId, endDate);
    if OpenRentalIndex(s.records, rentalId).Some? {
      var k := OpenRentalIndex(s.records, rentalId).value;
      var r := s.records[k];
      assert Held(s.cars, r.carId);
      HeldAtIndex(s.cars, r.carId);
      var i := CarIndex(s.cars, r.carId).value;
      assert t.cars == s.cars[i := s.cars[i].(available := true)];
      forall l | 0 <= l < |t.records| && t.records[l].endDate.None?
        ensures Held(t.cars, t.records[l].carId)
      {
        var id := t.records[l].carId;
        assert l != k && t.records[l] == s.records[l];
        assert id != r.carId;
        CarIndexAfterUpdate(s.cars, i, s.cars[i].(available := true), id);
        HeldAtIndex(s.cars, id);
        HeldAtIndex(t.cars, id);
      }
      forall l, m | 0 <= l < m < |t.records| && t.records[l].endDate.None? && t.records[m].endDate.None?
        ensures t.records[l].carId != t.records[m].carId
      {
        assert l != k && m != k;
        assert t.records[l] == s.records[l] && t.records[m] == s.records[m];
      }
      forall l | 0 <= l < |t.records| ensures FeeDerived(t.records[l]) {
        if l != k {
          assert t.records[l] == s.records[l];
        }
      }
    }
  }

  // ---------------------------------------------------------------------
  // Rental lifecycle
  // ---------------------------------------------------------------------

  /**
   * Renting an available car and then returning that rental restores the
   * car list and leaves one more record in the ledger: the rental, closed
   * on `endDate` with the fee for the elapsed days. This needs that no open
   * record already carries `rentalId`, since the source does not reject a
   * reused rental id and `returnCar` closes the earliest open one.
   */
  lemma {:induction false} RentThenReturn(s: State, rentalId: int, carId: int, customerId: int,
                                          startDate: int, endDate: int)
    requires CanRent(s, carId)
    requires OpenRentalIndex(s.records, rentalId).None?
    ensures ReturnCar(RentCar(s, rentalId, carId, customerId, startDate), rentalId, endDate) ==
      State(s.cars, s.records + [RentalRecord(rentalId, carId, customerId, startDate, Some(endDate),
                                              FeePerDay * (endDate - startDate))])
  {
    var t := RentCar(s, rentalId, carId, customerId, startDate);
    var i := CarIndex(s.cars, carId).value;
    var n := |s.records|;
    HeldAtIndex(s.cars, carId);
    assert t.records[n] == OpenRecord(rentalId, carId, customerId, startDate);
    assert OpenRentalIndex(t.records, rentalId) == Some(n) by {
      forall j | 0 <= j < n ensures !(t.records[j].rentalId == rentalId && t.records[j].endDate.None?) {
        assert t.records[j] == s.records[j];
      }
    }
    CarIndexAfterUpdate(s.cars, i, s.cars[i].(available := false), carId);
    assert Released(t.cars, carId) == s.cars;
    assert t.records[n := Closed(t.records[n], endDate)] ==
      s.records + [RentalRecord(rentalId, carId, customerId, startDate, Some(endDate),
                                FeePerDay * (endDate - startDate))];
  }

  /** After a successful rent its car cannot be rented again, under any rental id. */
  lemma {:induction false} RentTwiceRejected(s: State, rentalId: int, carId: int, customerId: int, startDate: int,
                                             rentalId2: int, customerId2: int, startDate2: int)
    requires CanRent(s, carId)
    ensures var t := RentCar(s, rentalId, carId, customerId, startDate);
      !CanRent(t, carId) && RentCar(t, rentalId2, carId, customerId2, startDate2) == t
  {
    var t := RentCar(s, rentalId, carId, customerId, startDate);
    HeldAtIndex(s.cars, carId);
    var i := CarIndex(s.cars, carId).value;
    CarIndexAfterUpdate(s.cars, i, s.cars[i].(available := false), carId);
    HeldAtIndex(t.cars, carId);
  }

  /** In a valid state, a car that an open record holds cannot be rented. */
  lemma RentOfHeldCarRejected(s: State, k: nat, rentalId: int, customerId: int, startDate: int)
    requires Valid(s)
    requires k < |s.records| && s.records[k].endDate.None?
    ensures RentCar(s, rentalId, s.records[k].carId, customerId, startDate) == s
  {
    assert Held(s.cars, s.records[k].carId);
  }

  /** In a valid state, returning an open rental makes its car rentable again. */
  lemma {:induction false} ReturnReleasesCar(s: State, rentalId: int, endDate: int)
    requires Valid(s)
    requires OpenRentalIndex(s.records, rentalId).Some?
    ensures CanRent(ReturnCar(s, rentalId, endDate), s.records[OpenRentalIndex(s.records, rentalId).value].carId)
  {
    var t := ReturnCar(s, rentalId, endDate);
    var carId := s.records[OpenRentalIndex(s.records, rentalId).value].carId;
    assert Held(s.cars, carId);
    HeldAtIndex(s.cars, carId);
    var i := CarIndex(s.cars, carId).value;
    CarIndexAfterUpdate(s.cars, i, s.cars[i].(available := true), carId);
    CarByIdAtIndex(t.cars, carId);
  }

  /** The rental id is open in the ledger at most once. */
  predicate OpenAtMostOnce(records: seq<RentalRecord>, rentalId: int)
  {
    forall k, l ::
      (0 <= k < |records| && 0 <= l < |records| &&
       records[k].rentalId == rentalId && records[k].endDate.None? &&
       records[l].rentalId == rentalId && records[l].endDate.None?) ==> k == l
  }

  /** A rental that is open once can be closed once: a second return changes nothing. */
  lemma {:induction false} ReturnTwiceRejected(s: State, rentalId: int, endDate: int, endDate2: int)
    requires OpenAtMostOnce(s.records, rentalId)
    ensures var t := ReturnCar(s, rentalId, endDate);
      OpenRentalIndex(t.records, rentalId).None? && ReturnCar(t, rentalId, endDate2) == t
  {
    var t := ReturnCar(s, rentalId, endDate);
    if OpenRentalIndex(s.records, rentalId).Some? {
      var k := OpenRentalIndex(s.records, rentalId).value;
      forall j | 0 <= j < |t.records| ensures !(t.records[j].rentalId == rentalId && t.records[j].endDate.None?) {
        if j != k {
          assert t.records[j] == s.records[j];
        }
      }
    }
  }

  // ---------------------------------------------------------------------
  // Fees across the operations
  // ---------------------------------------------------------------------

  /** Renting adds no fee and adding a car changes no record. */
  lemma {:induction false} RentKeepsTotalFees(s: State, rentalId: int, carId: int, customerId: int, startDate: int)
    ensures TotalRentalFees(RentCar(s, rentalId, carId, customerId, startDate).records) == TotalRentalFees(s.records)
  {
    SumFeesAppend(s.records, [OpenRecord(rentalId, carId, customerId, startDate)]);
    assert SumFees([OpenRecord(rentalId, carId, customerId, startDate)]) == 0;
  }

  /** An open record adds nothing to any car's rental duration. */
  lemma RentKeepsDuration(s: State, rentalId: int, carId: int, customerId: int, startDate: int, anyCar: int)
    ensures RentalDurationForCar(RentCar(s, rentalId, carId, customerId, startDate).records, anyCar) ==
            RentalDurationForCar(s.records, anyCar)
  {
    var rec := OpenRecord(rentalId, carId, customerId, startDate);
    FilterAppend(s.records, [rec], ClosedForCar(anyCar));
    assert Filter([rec], ClosedForCar(anyCar)) == [];
    assert Filter(s.records, ClosedForCar(anyCar)) + [] == Filter(s.records, ClosedForCar(anyCar));
  }

  /** In a valid state, a return raises the total fee by exactly the closed rental's fee. */
  lemma {:induction false} ReturnAddsItsFee(s: State, rentalId: int, endDate: int)
    requires Valid(s)
    requires OpenRentalIndex(s.records, rentalId).Some?
    ensures var r := s.records[OpenRentalIndex(s.records, rentalId).value];
      TotalRentalFees(ReturnCar(s, rentalId, endDate).records) ==
      TotalRentalFees(s.records) + FeePerDay * (endDate - r.startDate)
  {
    var k := OpenRentalIndex(s.records, rentalId).value;
    assert FeeDerived(s.records[k]);
    SumFeesUpdate(s.records, k, Closed(s.records[k], endDate));
  }
}
