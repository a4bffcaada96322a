/**
 * `CarRentalController` as a class: its two lists are fields that the
 * three state-changing methods reassign, element by element where the
 * source mutates a `Car` or a `RentalRecord` in place. Each method is proved
 * to follow the matching function of module Rental and to keep its
 * invariant. The read-only endpoints are the functions of modules Fleet,
 * Ledger and Popularity applied to the two fields.
 */
module Controller {
  import opened Sequences
  import opened Fleet
  import opened Ledger
  import Rental

  class CarRentalController {
    var cars: seq<Car>
    var records: seq<RentalRecord>

    /** The two lists as one value. */
    function Snapshot(): Rental.State
      reads this
    {
      Rental.State(cars, records)
    }

    ghost predicate Valid()
      reads this
    {
      Rental.Valid(Snapshot())
    }

    constructor ()
      ensures cars == [] && records == []
      ensures Valid()
    {
      cars := [];
      records := [];
      Rental.InitialValid();
    }

    /** `addCar`: `cars.add(car)`, which always answers true. */
    method AddCar(car: Car) returns (ok: bool)
      modifies this
      ensures ok
      ensures Snapshot() == Rental.AddCar(old(Snapshot()), car)
      ensures old(Valid()) ==> Valid()
    {
      ghost var before := Snapshot();
      cars := cars + [car];
      ok := true;
      if Rental.Valid(before) {
        Rental.AddCarPreservesValid(before, car);
      }
    }

    /**
     * `rentCar`: looks the car up; if it exists and is available, marks it
     * unavailable and appends an open record. Otherwise nothing changes,
     * and `rented` (which the source does not return) is false.
     */
    method RentCar(rentalId: int, carId: int, customerId: int, startDate: int) returns (rented: bool)
      modifies this
      ensures rented == Rental.CanRent(old(Snapshot()), carId)
      ensures Snapshot() == Rental.RentCar(old(Snapshot()), rentalId, carId, customerId, startDate)
      ensures old(Valid()) ==> Valid()
    {
      ghost var before := Snapshot();
      var car := CarById(cars, carId);
      rented := car.Some? && car.value.available;
      if rented {
        CarByIdAtIndex(cars, carId);
        var i := CarIndex(cars, carId).value;
        cars := cars[i := cars[i].(available := false)];
        records := records + [RentalRecord(rentalId, carId, customerId, startDate, None, 0)];
      }
      if Rental.Valid(before) {
        Rental.RentPreservesValid(before, rentalId, carId, customerId, startDate);
      }
    }

    /**
     * `returnCar`: finds the first open record with `rentalId`; if there is
     * one, sets its end date, then its fee from the elapsed days, then makes
     * the first car with the record's car id, if any, available. Otherwise
     * nothing changes, and `returned` (which the source does not return) is
     * false.
     */
    method ReturnCar(rentalId: int, endDate: int) returns (returned: bool)
      modifies this
      ensures returned == OpenRentalIndex(old(records), rentalId).Some?
      ensures Snapshot() == Rental.ReturnCar(old(Snapshot()), rentalId, endDate)
      ensures old(Valid()) ==> Valid()
    {
      ghost var before := Snapshot();
      var found := OpenRentalIndex(records, rentalId);
      returned := found.Some?;
      if returned {
        var k := found.value;
        var r := records[k].(endDate := Some(endDate));
        var days := DaysBetween(r.startDate, endDate);
        r := r.(fee := days * FeePerDay);
        records := records[k := r];
        var c := CarIndex(cars, r.carId);
        if c.Some? {
          cars := cars[c.value := cars[c.value].(available := true)];
        }
      }
      if Rental.Valid(before) {
        Rental.ReturnPreservesValid(before, rentalId, endDate);
      }
    }
  }

  /**
   * The round trip of a single unit: add a car, rent it from day 0, return
   * it on day 4. The car is out in between, back afterwards, and the rental
   * costs 200.
   */
  method RoundTripScenario()
  {
    var c := new CarRentalController();
    var ok := c.AddCar(Car(1, "Sedan", 2020, true));
    var rented := c.RentCar(7, 1, 42, 0);
    assert rented;
    assert c.cars[0].available == false;
    assert c.records == [RentalRecord(7, 1, 42, 0, None, 0)];
    var returned := c.ReturnCar(7, 4);
    assert returned;
    assert c.cars == [Car(1, "Sedan", 2020, true)];
    assert c.records == [RentalRecord(7, 1, 42, 0, Some(4), 200)];
    assert c.Valid();
    var again := c.ReturnCar(7, 9);
    assert !again;
  }
}
