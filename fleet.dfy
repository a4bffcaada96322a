/**
 * The fleet: the `Car` value class and the read-only queries of the
 * controller over its insertion-ordered list of cars.
 */
module Fleet {
  import opened Sequences

  /** One car. Only `available` is ever changed by the controller. */
  datatype Car = Car(id: int, model: string, year: int, available: bool)

  /** The `filter` predicate `car -> car.getId() == id`. */
  function HasId(id: int): Car -> bool
  {
    (c: Car) => c.id == id
  }

  /** Position of the first car carrying `id`: the object `getCarById` hands back. */
  function CarIndex(cars: seq<Car>, id: int): (r: Option<nat>)
    ensures r.Some? ==> r.value < |cars| && cars[r.value].id == id
    ensures r.Some? ==> forall j :: 0 <= j < r.value ==> cars[j].id != id
    ensures r.None? <==> forall j :: 0 <= j < |cars| ==> cars[j].id != id
  {
    FirstIndex(cars, HasId(id))
  }

  /** `getCarById`: the first car with the given id, or none. */
  function CarById(cars: seq<Car>, id: int): (r: Option<Car>)
    ensures r.None? <==> forall j :: 0 <= j < |cars| ==> cars[j].id != id
    ensures r.Some? ==>
      exists i :: 0 <= i < |cars| && cars[i] == r.value && r.value.id == id &&
        forall j :: 0 <= j < i ==> cars[j].id != id
  {
    FindFirst(cars, HasId(id))
  }

  /** The car `CarById` returns is the one at `CarIndex`. */
  lemma CarByIdAtIndex(cars: seq<Car>, id: int)
    ensures CarById(cars, id) ==
      match CarIndex(cars, id)
      case None => None
      case Some(i) => Some(cars[i])
  {
  }

  /** Replacing a car by one with the same id moves no first match. */
  lemma CarIndexAfterUpdate(cars: seq<Car>, i: nat, c: Car, id: int)
    requires i < |cars| && c.id == cars[i].id
    ensures CarIndex(cars[i := c], id) == CarIndex(cars, id)
  {
    FirstIndexStable(cars, cars[i := c], HasId(id));
  }

  /** Appending a car only resolves ids that did not resolve before. */
  lemma CarIndexAfterAppend(cars: seq<Car>, car: Car, id: int)
    ensures CarIndex(cars + [car], id) ==
      if CarIndex(cars, id).Some? then CarIndex(cars, id)
      else if car.id == id then Some(|cars|)
      else None
  {
    FirstIndexAppend(cars, car, HasId(id));
  }

  function IsAvailable(c: Car): bool
  {
    c.available
  }

  /** `getAvailableCars`: the available cars, in insertion order. */
  function AvailableCars(cars: seq<Car>): (r: seq<Car>)
    ensures forall c :: c in r ==> c.available
    ensures forall c :: multiset(r)[c] == if c.available then multiset(cars)[c] else 0
    ensures IsSubsequence(r, cars)
  {
    FilterCounts(cars, IsAvailable);
    FilterKeepsOrder(cars, IsAvailable);
    Filter(cars, IsAvailable)
  }

  /**
   * ASCII case folding; the letters A to Z map to a to z and every other
   * character to itself.
   */
  function FoldCase(ch: char): char
  {
    if 'A' <= ch <= 'Z' then (ch as int + ('a' as int - 'A' as int)) as char else ch
  }

  /** The string with every character folded. */
  function Folded(s: string): (r: string)
    ensures |r| == |s|
    ensures forall i :: 0 <= i < |s| ==> r[i] == FoldCase(s[i])
  {
    seq(|s|, i requires 0 <= i < |s| => FoldCase(s[i]))
  }

  /** `String.equalsIgnoreCase`, restricted to ASCII letters: the foldings agree. */
  predicate EqualsIgnoreCase(a: string, b: string)
  {
    Folded(a) == Folded(b)
  }

  /**
   * `equalsIgnoreCase` as Java evaluates it: equal lengths, and every pair of
   * characters at the same position equal after folding.
   */
  lemma EqualsIgnoreCaseCharByChar(a: string, b: string)
    ensures EqualsIgnoreCase(a, b) <==>
      |a| == |b| && forall i :: 0 <= i < |a| ==> FoldCase(a[i]) == FoldCase(b[i])
  {
    if Folded(a) == Folded(b) {
      assert |a| == |Folded(a)|;
      forall i | 0 <= i < |a| ensures FoldCase(a[i]) == FoldCase(b[i]) {
        assert Folded(a)[i] == Folded(b)[i];
      }
    }
  }

  /** The `filter` predicate of `getAvailableByModelYear`. */
  function MatchesModelYear(model: string, year: int): Car -> bool
  {
    (c: Car) => c.available && EqualsIgnoreCase(c.model, model) && c.year == year
  }

  /**
   * `getAvailableByModelYear`: the available cars whose model equals `model`
   * ignoring case and whose year is `year`, in insertion order.
   */
  function AvailableByModelYear(cars: seq<Car>, model: string, year: int): (r: seq<Car>)
    ensures forall c :: c in r ==> c.available && EqualsIgnoreCase(c.model, model) && c.year == year
    ensures forall c :: multiset(r)[c] ==
                        if c.available && EqualsIgnoreCase(c.model, model) && c.year == year
                        then multiset(cars)[c] else 0
    ensures IsSubsequence(r, cars)
  {
    FilterCounts(cars, MatchesModelYear(model, year));
    FilterKeepsOrder(cars, MatchesModelYear(model, year));
    Filter(cars, MatchesModelYear(model, year))
  }

  /** The model-and-year query only ever narrows the available-cars query. */
  lemma {:induction false} ByModelYearWithinAvailable(cars: seq<Car>, model: string, year: int)
    ensures IsSubsequence(AvailableByModelYear(cars, model, year), AvailableCars(cars))
  {
    if cars != [] {
      var rest := cars[1..];
      ByModelYearWithinAvailable(rest, model, year);
      var r := AvailableByModelYear(cars, model, year);
      var a := AvailableCars(cars);
      if cars[0].available {
        assert a == [cars[0]] + AvailableCars(rest);
        if MatchesModelYear(model, year)(cars[0]) {
          assert r == [cars[0]] + AvailableByModelYear(rest, model, year);
          assert r[1..] == AvailableByModelYear(rest, model, year);
          assert a[1..] == AvailableCars(rest);
        } else {
          assert r == AvailableByModelYear(rest, model, year);
          SubsequenceOfCons(r, AvailableCars(rest), cars[0]);
        }
      } else {
        assert r == AvailableByModelYear(rest, model, year);
        assert a == AvailableCars(rest);
      }
    }
  }
}
