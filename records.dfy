/** The two entities of the data model. Each record carries the identity of
    its managed object (`id`); attributes the data model leaves optional are
    `Option`s. Dates are day numbers, prices whole currency units. */
module Records {

  datatype Option<+T> = None | Some(value: T) {
    /** Swift's `??`. */
    function GetOr(default: T): T {
      match this
      case Some(v) => v
      case None => default
    }
  }

  datatype Car = Car(
    id: nat,
    brand: Option<string>,
    model: Option<string>,
    year: int,
    pricePerDay: int,
    fuelType: Option<string>,
    seatsCount: int,
    isAvailable: bool,
    imageName: Option<string>)

  datatype Reservation = Reservation(
    id: nat,
    customerName: Option<string>,
    customerEmail: Option<string>,
    customerPhone: Option<string>,
    startDate: Option<int>,
    endDate: Option<int>,
    totalPrice: int,
    createdAt: Option<int>,
    car: Option<Car>)

  function CarId(c: Car): nat { c.id }

  function ReservationId(r: Reservation): nat { r.id }

  /** No two records of `s` are the same managed object. */
  ghost predicate DistinctIds<T>(s: seq<T>, id: T -> nat) {
    forall i, j :: 0 <= i < j < |s| ==> id(s[i]) != id(s[j])
  }

  /** The filter that `delete` applies: keep what is not one of `ids`. */
  function CarNotIn(ids: set<nat>): Car -> bool {
    (c: Car) => c.id !in ids
  }

  function ReservationIsNot(id: nat): Reservation -> bool {
    (r: Reservation) => r.id != id
  }
}
