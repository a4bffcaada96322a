/**
 * The rental ledger: the `RentalRecord` value class, the fee rule, and the
 * read-only filters and sums of the controller over its insertion-ordered
 * list of rental records. Dates are day numbers and fees whole currency
 * units.
 */
module Ledger {
  import opened Sequences

  /** One rental. An absent `endDate` means the rental is still open. */
  datatype RentalRecord = RentalRecord(
    rentalId: int,
    carId: int,
    customerId: int,
    startDate: int,
    endDate: Option<int>,
    fee: int)

  /** The flat rate charged per elapsed day. */
  const FeePerDay: int := 50

  /** `ChronoUnit.DAYS.between(from, to)` on day numbers. */
  function DaysBetween(from: int, to: int): int
  {
    to - from
  }

  /**
   * The fee set when a rental that started on `start` is returned on `end`.
   * Nothing stops `end` from lying before `start`.
   */
  function RentalFee(start: int, end: int): (fee: int)
    ensures fee == 0 <==> end == start
    ensures fee < 0 <==> end < start
    ensures fee % FeePerDay == 0 && fee / FeePerDay == end - start
  {
    DaysBetween(start, end) * FeePerDay
  }

  /** A record's fee is zero while it is open and is the fee of its dates once closed. */
  predicate FeeDerived(r: RentalRecord)
  {
    match r.endDate
    case None => r.fee == 0
    case Some(end) => r.fee == RentalFee(r.startDate, end)
  }

  predicate FeesDerived(records: seq<RentalRecord>)
  {
    forall k :: 0 <= k < |records| ==> FeeDerived(records[k])
  }

  function HasRentalId(rentalId: int): RentalRecord -> bool
  {
    (r: RentalRecord) => r.rentalId == rentalId
  }

  /** The `filter` predicate of `returnCar`: this rental id, and still open. */
  function IsOpenRental(rentalId: int): RentalRecord -> bool
  {
    (r: RentalRecord) => r.rentalId == rentalId && r.endDate.None?
  }

  function ForCar(carId: int): RentalRecord -> bool
  {
    (r: RentalRecord) => r.carId == carId
  }

  function ForCustomer(customerId: int): RentalRecord -> bool
  {
    (r: RentalRecord) => r.customerId == customerId
  }

  /** The `filter` predicate of `getRentalDurationForCar`: this car, and closed. */
  function ClosedForCar(carId: int): RentalRecord -> bool
  {
    (r: RentalRecord) => r.carId == carId && r.endDate.Some?
  }

  /** `getRentalById`: the first record with the given rental id, open or closed. */
  function RentalById(records: seq<RentalRecord>, rentalId: int): (r: Option<RentalRecord>)
    ensures r.None? <==> forall j :: 0 <= j < |records| ==> records[j].rentalId != rentalId
    ensures r.Some? ==>
      exists i :: 0 <= i < |records| && records[i] == r.value && r.value.rentalId == rentalId &&
        forall j :: 0 <= j < i ==> records[j].rentalId != rentalId
  {
    FindFirst(records, HasRentalId(rentalId))
  }

  /** Position of the first OPEN record with the given rental id: the one `returnCar` closes. */
  function OpenRentalIndex(records: seq<RentalRecord>, rentalId: int): (r: Option<nat>)
    ensures r.Some? ==>
      r.value < |records| && records[r.value].rentalId == rentalId && records[r.value].endDate.None?
    ensures r.Some? ==>
      forall j :: 0 <= j < r.value ==> !(records[j].rentalId == rentalId && records[j].endDate.None?)
    ensures r.None? <==>
      forall j :: 0 <= j < |records| ==> !(records[j].rentalId == rentalId && records[j].endDate.None?)
  {
    FirstIndex(records, IsOpenRental(rentalId))
  }

  /** `getRentalsForCar`: the records of one car, in insertion order. */
  function RentalsForCar(records: seq<RentalRecord>, carId: int): (r: seq<RentalRecord>)
    ensures forall x :: x in r ==> x.carId == carId
    ensures forall x :: multiset(r)[x] == if x.carId == carId then multiset(records)[x] else 0
    ensures IsSubsequence(r, records)
  {
    FilterCounts(records, ForCar(carId));
    FilterKeepsOrder(records, ForCar(carId));
    Filter(records, ForCar(carId))
  }

  /** `getRentalsForCustomer`: the records of one customer, in insertion order. */
  function RentalsForCustomer(records: seq<RentalRecord>, customerId: int): (r: seq<RentalRecord>)
    ensures forall x :: x in r ==> x.customerId == customerId
    ensures forall x :: multiset(r)[x] == if x.customerId == customerId then multiset(records)[x] else 0
    ensures IsSubsequence(r, records)
  {
    FilterCounts(records, ForCustomer(customerId));
    FilterKeepsOrder(records, ForCustomer(customerId));
    Filter(records, ForCustomer(customerId))
  }

  /** `mapToDouble(RentalRecord::getRentalFee).sum()`; a fold over the fee fields. */
  function SumFees(rs: seq<RentalRecord>): int
  {
    if rs == [] then 0 else rs[0].fee + SumFees(rs[1..])
  }

  /** The elapsed days of a closed record; an open record has none yet. */
  function Days(r: RentalRecord): int
  {
    match r.endDate
    case None => 0
    case Some(end) => DaysBetween(r.startDate, end)
  }

  /**
   * `mapToLong(r -> DAYS.between(start, end)).sum()`. The source applies it
   * to closed records only, where `Days` is the difference of the dates.
   */
  function SumDays(rs: seq<RentalRecord>): int
  {
    if rs == [] then 0 else Days(rs[0]) + SumDays(rs[1..])
  }

  /**
   * `getTotalRentalFees`: the sum of every record's fee. When fees come from
   * dates, that is the fee total of the closed records alone.
   */
  function TotalRentalFees(records: seq<RentalRecord>): (total: int)
    ensures FeesDerived(records) ==> total == SumFees(Filter(records, IsClosed))
  {
    if FeesDerived(records) then
      TotalFeesAreClosedFees(records);
      SumFees(records)
    else
      SumFees(records)
  }

  /**
   * `getTotalFeesForCustomer`: the fees of one customer's records, which
   * together with the fees of everybody else's records make up the total.
   */
  function TotalFeesForCustomer(records: seq<RentalRecord>, customerId: int): (total: int)
    ensures total + SumFees(Filter(records, Not(ForCustomer(customerId)))) == SumFees(records)
  {
    SumFeesSplit(records, ForCustomer(customerId));
    SumFees(RentalsForCustomer(records, customerId))
  }

  /**
   * `getRentalDurationForCar`: elapsed days over the closed records of one
   * car. When fees come from dates, the car has earned exactly the flat rate
   * times this duration.
   */
  function RentalDurationForCar(records: seq<RentalRecord>, carId: int): (days: int)
    ensures FeesDerived(records) ==> SumFees(RentalsForCar(records, carId)) == FeePerDay * days
  {
    if FeesDerived(records) then
      CarFeesAreRateTimesDuration(records, carId);
      SumDays(Filter(records, ClosedForCar(carId)))
    else
      SumDays(Filter(records, ClosedForCar(carId)))
  }

  function Not<T>(p: T -> bool): T -> bool
  {
    x => !p(x)
  }

  /** The fee sum is additive over concatenation. */
  lemma {:induction false} SumFeesAppend(a: seq<RentalRecord>, b: seq<RentalRecord>)
    ensures SumFees(a + b) == SumFees(a) + SumFees(b)
  {
    if a == [] {
      assert a + b == b;
    } else {
      assert (a + b)[1..] == a[1..] + b;
      SumFeesAppend(a[1..], b);
    }
  }

  lemma SumFeesCons(r: RentalRecord, rs: seq<RentalRecord>)
    ensures SumFees([r] + rs) == r.fee + SumFees(rs)
  {
    assert ([r] + rs)[1..] == rs;
  }

  lemma SumDaysCons(r: RentalRecord, rs: seq<RentalRecord>)
    ensures SumDays([r] + rs) == Days(r) + SumDays(rs)
  {
    assert ([r] + rs)[1..] == rs;
  }

  /** Replacing one record changes the fee sum by exactly the change of that record's fee. */
  lemma {:induction false} SumFeesUpdate(rs: seq<RentalRecord>, k: nat, x: RentalRecord)
    requires k < |rs|
    ensures SumFees(rs[k := x]) == SumFees(rs) - rs[k].fee + x.fee
  {
    if k > 0 {
      assert rs[k := x][1..] == rs[1..][k - 1 := x];
      SumFeesUpdate(rs[1..], k - 1, x);
    }
  }

  /** Splitting the records by any predicate splits their fee sum. */
  lemma {:induction false} SumFeesSplit(rs: seq<RentalRecord>, p: RentalRecord -> bool)
    ensures SumFees(Filter(rs, p)) + SumFees(Filter(rs, Not(p))) == SumFees(rs)
  {
    if rs != [] {
      SumFeesSplit(rs[1..], p);
      if p(rs[0]) {
        assert Filter(rs, p) == [rs[0]] + Filter(rs[1..], p);
        assert Filter(rs, Not(p)) == Filter(rs[1..], Not(p));
        assert ([rs[0]] + Filter(rs[1..], p))[1..] == Filter(rs[1..], p);
      } else {
        assert Filter(rs, p) == Filter(rs[1..], p);
        assert Filter(rs, Not(p)) == [rs[0]] + Filter(rs[1..], Not(p));
        assert ([rs[0]] + Filter(rs[1..], Not(p)))[1..] == Filter(rs[1..], Not(p));
      }
    }
  }

  /** With every fee derived from its dates, open records add nothing to a fee sum. */
  lemma {:induction false} OpenRecordsAddNoFees(rs: seq<RentalRecord>)
    requires FeesDerived(rs)
    requires forall k :: 0 <= k < |rs| ==> rs[k].endDate.None?
    ensures SumFees(rs) == 0
  {
    if rs != [] {
      assert FeeDerived(rs[0]);
      OpenRecordsAddNoFees(rs[1..]);
    }
  }

  function IsClosed(r: RentalRecord): bool
  {
    r.endDate.Some?
  }

  /** The fee sum equals the fees of the closed records alone. */
  lemma TotalFeesAreClosedFees(records: seq<RentalRecord>)
    requires FeesDerived(records)
    ensures SumFees(records) == SumFees(Filter(records, IsClosed))
  {
    SumFeesSplit(records, IsClosed);
    var open := Filter(records, Not(IsClosed));
    FilterKeepsOrder(records, Not(IsClosed));
    forall k | 0 <= k < |open| ensures open[k].endDate.None? && FeeDerived(open[k]) {
      assert open[k] in open;
      InSubsequence(open, records, open[k]);
    }
    OpenRecordsAddNoFees(open);
  }

  /**
   * With every fee derived from its dates, a car has earned exactly the flat
   * rate times the days summed over its closed records.
   */
  lemma {:induction false} CarFeesAreRateTimesDuration(records: seq<RentalRecord>, carId: int)
    requires FeesDerived(records)
    ensures SumFees(RentalsForCar(records, carId)) == FeePerDay * SumDays(Filter(records, ClosedForCar(carId)))
  {
    if records != [] {
      var r, rest := records[0], records[1..];
      assert FeeDerived(r);
      assert FeesDerived(rest) by {
        forall k | 0 <= k < |rest| ensures FeeDerived(rest[k]) {
          assert rest[k] == records[k + 1];
        }
      }
      CarFeesAreRateTimesDuration(rest, carId);
      var fs, ds := RentalsForCar(rest, carId), Filter(rest, ClosedForCar(carId));
      if r.carId == carId {
        SumFeesCons(r, fs);
        if r.endDate.Some? {
          SumDaysCons(r, ds);
        }
      }
    }
  }
}
