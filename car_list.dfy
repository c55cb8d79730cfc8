/** The car list (bartek/ContentView.swift): cars fetched in brand order, the
    availability filter, adding the sample car and swipe-to-delete. */
module CarList {
  import opened Records
  import opened Seqs
  import opened Ordering
  import opened Store

  const AllFilter := "Wszystkie"
  const AvailableFilter := "Dostępne"
  const UnavailableFilter := "Niedostępne"

  /** The fetch request's sort descriptor: brand, ascending. */
  function BrandKey(c: Car): Key {
    Str(c.brand.GetOr(""))
  }

  function Available(): Car -> bool {
    (c: Car) => c.isAvailable
  }

  function Unavailable(): Car -> bool {
    (c: Car) => !c.isAvailable
  }

  /** `filteredCars`: the available cars, the unavailable ones, or, for any
      other selection, all fetched cars. */
  function FilteredCars(cars: seq<Car>, filter: string): (r: seq<Car>)
    ensures filter == AvailableFilter ==>
      forall c :: multiset(r)[c] == if c.isAvailable then multiset(cars)[c] else 0
    ensures filter == UnavailableFilter ==>
      forall c :: multiset(r)[c] == if c.isAvailable then 0 else multiset(cars)[c]
    ensures filter != AvailableFilter && filter != UnavailableFilter ==> r == cars
    ensures forall c :: c in r ==> c in cars
  {
    if filter == AvailableFilter then Filter(cars, Available())
    else if filter == UnavailableFilter then Filter(cars, Unavailable())
    else cars
  }

  /** Every fetched car is shown under exactly one of the two availability
      filters. */
  lemma AvailabilityPartition(cars: seq<Car>)
    ensures |FilteredCars(cars, AvailableFilter)| + |FilteredCars(cars, UnavailableFilter)| == |cars|
  {
    FilterPartition(cars, Available(), Unavailable());
  }

  /** Filtering keeps the fetched order: the shown list is a subsequence of
      the fetched one, and stays in brand order. */
  lemma FilteredCarsKeepOrder(cars: seq<Car>, filter: string)
    ensures IsSubsequence(FilteredCars(cars, filter), cars)
    ensures SortedBy(cars, BrandKey) ==> SortedBy(FilteredCars(cars, filter), BrandKey)
  {
    if filter == AvailableFilter {
      FilterIsSubsequence(cars, Available());
      if SortedBy(cars, BrandKey) { FilterKeepsSorted(cars, Available(), BrandKey); }
    } else if filter == UnavailableFilter {
      FilterIsSubsequence(cars, Unavailable());
      if SortedBy(cars, BrandKey) { FilterKeepsSorted(cars, Unavailable(), BrandKey); }
    } else {
      FilterKeepsAll(cars, (c: Car) => true);
      FilterIsSubsequence(cars, (c: Car) => true);
    }
  }

  /** The identities of the shown cars at the swiped offsets. */
  function IdsAt(shown: seq<Car>, offsets: set<nat>): set<nat> {
    set o | o in offsets && o < |shown| :: shown[o].id
  }

  /** Deleting the car at one more offset extends the deleted identities. */
  lemma DeleteStep(all: seq<Car>, shown: seq<Car>, offsets: set<nat>, remaining: set<nat>, o: nat)
    requires o in remaining && remaining <= offsets && o < |shown|
    ensures Filter(Filter(all, CarNotIn(IdsAt(shown, offsets - remaining))), CarNotIn({shown[o].id}))
      == Filter(all, CarNotIn(IdsAt(shown, offsets - (remaining - {o}))))
  {
    var done := IdsAt(shown, offsets - remaining);
    assert offsets - (remaining - {o}) == (offsets - remaining) + {o};
    assert IdsAt(shown, offsets - (remaining - {o})) == done + {shown[o].id};
    FilterTwice(all, CarNotIn(done), CarNotIn({shown[o].id}), CarNotIn(done + {shown[o].id}));
  }

  /** Deleting by the identities of the shown cars removes exactly the cars at
      those offsets, since identities are distinct. */
  lemma DeleteCarsRemovesChosen(all: seq<Car>, shown: seq<Car>, offsets: set<nat>)
    requires DistinctIds(all, CarId)
    requires forall c :: c in shown ==> c in all
    requires forall o :: o in offsets ==> o < |shown|
    ensures forall x :: x in Filter(all, CarNotIn(IdsAt(shown, offsets))) <==>
      x in all && forall o :: o in offsets ==> shown[o] != x
  {
    forall x | x in all
      ensures x.id in IdsAt(shown, offsets) <==> exists o :: o in offsets && shown[o] == x
    {
      if x.id in IdsAt(shown, offsets) {
        var o :| o in offsets && o < |shown| && shown[o].id == x.id;
        DistinctIdsSameRecord(all, CarId, shown[o], x);
      }
    }
  }

  /** The car `addSampleCar` inserts, before the context gives it an identity. */
  const SampleCar := Car(0, Some("Ford"), Some("Focus"), 2023, 120, Some("Benzyna"), 5, true, Some("car.fill"))

  /** The fetch request: the context's cars in brand order. */
  method FetchCars(context: Context) returns (cars: seq<Car>)
    ensures SortedBy(cars, BrandKey)
    ensures multiset(cars) == multiset(context.cars)
  {
    cars := SortedCopy(context.cars, BrandKey);
  }

  /** `offsets.map { filteredCars[$0] }.forEach(viewContext.delete)`: the
      cars at the offsets are deleted one after another. */
  method DeleteShown(context: Context, shown: seq<Car>, offsets: set<nat>)
    requires context.Valid()
    requires forall o :: o in offsets ==> o < |shown|
    modifies context
    ensures context.Valid()
    ensures context.cars == Filter(old(context.cars), CarNotIn(IdsAt(shown, offsets)))
    ensures context.reservations == old(context.reservations)
  {
    ghost var all := context.cars;
    var remaining := offsets;
    assert IdsAt(shown, offsets - remaining) == {};
    FilterKeepsAll(all, CarNotIn({}));
    while remaining != {}
      invariant remaining <= offsets
      invariant context.Valid()
      invariant context.cars == Filter(all, CarNotIn(IdsAt(shown, offsets - remaining)))
      invariant context.reservations == old(context.reservations)
      decreases remaining
    {
      var o :| o in remaining;
      ghost var before := context.cars;
      context.DeleteCar(shown[o].id);
      assert context.cars == Filter(before, CarNotIn({shown[o].id}));
      DeleteStep(all, shown, offsets, remaining, o);
      remaining := remaining - {o};
    }
    assert offsets - remaining == offsets;
  }

  class CarListView {
    const context: Context
    /** The results of the fetch request. */
    var cars: seq<Car>
    var selectedFilter: string
    var showingReservations: bool

    /** The fetched list holds the context's cars, in brand order. */
    ghost predicate Valid()
      reads this, context
    {
      context.Valid() && multiset(cars) == multiset(context.cars) && SortedBy(cars, BrandKey)
    }

    constructor (context: Context)
      requires context.Valid()
      ensures Valid() && this.context == context
      ensures selectedFilter == AllFilter && !showingReservations
    {
      var fetched := FetchCars(context);
      this.context := context;
      cars := fetched;
      selectedFilter := AllFilter;
      showingReservations := false;
    }

    /** `addSampleCar`: a new Ford Focus joins the context and the fetched
        list. A failed save ends the program and is not modelled. */
    method AddSampleCar()
      requires Valid()
      modifies this`cars, context
      ensures Valid()
      ensures context.cars == old(context.cars) + [SampleCar.(id := old(context.nextId))]
      ensures context.reservations == old(context.reservations)
      ensures SampleCar.(id := old(context.nextId)) in cars
    {
      var inserted := context.InsertCar(SampleCar);
      cars := FetchCars(context);
      assert inserted in multiset(context.cars);
    }

    /** `deleteCars`: the swiped offsets index the shown list; every car found
        there is deleted from the context, then the list is fetched again.
        A failed save ends the program and is not modelled. */
    method DeleteCars(offsets: set<nat>)
      requires Valid()
      requires forall o :: o in offsets ==> o < |FilteredCars(cars, selectedFilter)|
      modifies this`cars, context
      ensures Valid()
      ensures context.cars == Filter(old(context.cars), CarNotIn(IdsAt(old(FilteredCars(cars, selectedFilter)), offsets)))
      ensures forall x :: x in context.cars <==>
        x in old(context.cars) && forall o :: o in offsets ==> old(FilteredCars(cars, selectedFilter))[o] != x
      ensures context.reservations == old(context.reservations)
    {
      var shown := FilteredCars(cars, selectedFilter);
      ghost var all := context.cars;
      forall c | c in shown
        ensures c in all
      {
        assert c in multiset(cars);
      }
      DeleteShown(context, shown, offsets);
      DeleteCarsRemovesChosen(all, shown, offsets);
      cars := FetchCars(context);
    }
  }
}
