/** The reservation list (bartek/ReservationListView.swift): search over four
    fields, sort by one of four options, the status label of a row, and the
    deletion of a reservation. */
module ReservationList {
  import opened Records
  import opened Text
  import opened Seqs
  import opened Ordering
  import opened Store

  const StartDateOption := "Data rozpoczęcia"
  const CreatedAtOption := "Data utworzenia"
  const CustomerNameOption := "Nazwa klienta"
  const PriceOption := "Cena"

  /** An optional field matches when it is present and contains the text,
      ignoring case. */
  predicate FieldMatches(field: Option<string>, text: string) {
    field.Some? && CaseInsensitiveContains(field.value, text)
  }

  /** The search closure: customer name, customer email, car brand or car model. */
  predicate MatchesSearch(r: Reservation, text: string)
    ensures MatchesSearch(r, text) ==> text != []
    ensures r.customerName.None? && r.customerEmail.None? && r.car.None? ==> !MatchesSearch(r, text)
  {
    || FieldMatches(r.customerName, text)
    || FieldMatches(r.customerEmail, text)
    || (r.car.Some? && FieldMatches(r.car.value.brand, text))
    || (r.car.Some? && FieldMatches(r.car.value.model, text))
  }

  function SearchFilter(text: string): Reservation -> bool {
    (r: Reservation) => MatchesSearch(r, text)
  }

  /** The search step of `filteredReservations`: no filtering for an empty
      search text, else the reservations that match, in their order. */
  function Searched(reservations: seq<Reservation>, text: string): (r: seq<Reservation>)
    ensures text == [] ==> r == reservations
    ensures text != [] ==> forall x :: multiset(r)[x] == if MatchesSearch(x, text) then multiset(reservations)[x] else 0
    ensures text != [] ==> forall x :: x in r <==> x in reservations && MatchesSearch(x, text)
  {
    if text == [] then reservations else Filter(reservations, SearchFilter(text))
  }

  /** A reservation matches exactly when the folded text occurs in the folded
      value of one of the four present fields; a missing field never matches. */
  lemma MatchesSearchMeaning(r: Reservation, text: string)
    ensures MatchesSearch(r, text) <==>
      text != [] &&
      (exists field :: field in SearchedFields(r) && OccursIn(Fold(text), Fold(field)))
  {
    var fields := SearchedFields(r);
    if MatchesSearch(r, text) {
      if FieldMatches(r.customerName, text) {
        assert r.customerName.value in fields;
      } else if FieldMatches(r.customerEmail, text) {
        assert r.customerEmail.value in fields;
      } else if r.car.Some? && FieldMatches(r.car.value.brand, text) {
        assert r.car.value.brand.value in fields;
      } else {
        assert r.car.value.model.value in fields;
      }
    }
  }

  /** The values of the four searched fields that are present. */
  function SearchedFields(r: Reservation): (fields: set<string>)
    ensures r.customerName.Some? ==> r.customerName.value in fields
    ensures r.customerEmail.Some? ==> r.customerEmail.value in fields
    ensures r.car.Some? && r.car.value.brand.Some? ==> r.car.value.brand.value in fields
    ensures r.car.Some? && r.car.value.model.Some? ==> r.car.value.model.value in fields
    ensures forall f :: f in fields ==>
      || r.customerName == Some(f) || r.customerEmail == Some(f)
      || (r.car.Some? && (r.car.value.brand == Some(f) || r.car.value.model == Some(f)))
  {
    (if r.customerName.Some? then {r.customerName.value} else {})
    + (if r.customerEmail.Some? then {r.customerEmail.value} else {})
    + (if r.car.Some? && r.car.value.brand.Some? then {r.car.value.brand.value} else {})
    + (if r.car.Some? && r.car.value.model.Some? then {r.car.value.model.value} else {})
  }

  /** Searching "kowalski" finds a reservation made by "Jan Kowalski". */
  lemma SearchIgnoresCase(r: Reservation)
    requires r.customerName == Some("Jan Kowalski")
    ensures MatchesSearch(r, "kowalski")
  {
    var hay := Fold("Jan Kowalski");
    assert hay[4..12] == Fold("kowalski");
    ContainsAt(hay, Fold("kowalski"), 4);
  }

  /** The sort closures of `filteredReservations`, option by option; a missing
      date counts as now and a missing name as "". Each is a strict order, as
      `sort(by:)` requires of its closure: irreflexive here, asymmetric by
      `PrecedesAsymmetric`. */
  predicate Precedes(option: string, now: int, x: Reservation, y: Reservation)
    ensures Precedes(option, now, x, y) ==> x != y
  {
    TextLessIrreflexive(x.customerName.GetOr(""));
    if option == CreatedAtOption then x.createdAt.GetOr(now) > y.createdAt.GetOr(now)
    else if option == CustomerNameOption then TextLess(x.customerName.GetOr(""), y.customerName.GetOr(""))
    else if option == PriceOption then x.totalPrice > y.totalPrice
    else x.startDate.GetOr(now) < y.startDate.GetOr(now)
  }

  /** No two reservations precede each other under one option. */
  lemma PrecedesAsymmetric(option: string, now: int, x: Reservation, y: Reservation)
    ensures Precedes(option, now, x, y) ==> !Precedes(option, now, y, x)
  {
    TextLessAsymmetric(x.customerName.GetOr(""), y.customerName.GetOr(""));
  }

  /** The key each sort option orders by; the descending orders negate it.
      Sorting by the key puts elements in the order the closure asks for. */
  function SortKey(option: string, now: int): (key: Reservation -> Key)
    ensures forall x, y :: KeyLess(key(x), key(y)) <==> Precedes(option, now, x, y)
  {
    if option == CreatedAtOption then (r: Reservation) => Num(-r.createdAt.GetOr(now))
    else if option == CustomerNameOption then (r: Reservation) => Str(r.customerName.GetOr(""))
    else if option == PriceOption then (r: Reservation) => Num(-r.totalPrice)
    else (r: Reservation) => Num(r.startDate.GetOr(now))
  }

  /** What each option's order means for the sorted list. */
  lemma SortedMeaning(s: seq<Reservation>, option: string, now: int)
    requires SortedBy(s, SortKey(option, now))
    ensures option == CreatedAtOption ==>
      forall i, j :: 0 <= i < j < |s| ==> s[i].createdAt.GetOr(now) >= s[j].createdAt.GetOr(now)
    ensures option == PriceOption ==>
      forall i, j :: 0 <= i < j < |s| ==> s[i].totalPrice >= s[j].totalPrice
    ensures option == CustomerNameOption ==>
      forall i, j :: 0 <= i < j < |s| ==>
        var a, b := s[i].customerName.GetOr(""), s[j].customerName.GetOr("");
        a == b || TextLess(a, b)
    ensures option !in [CreatedAtOption, CustomerNameOption, PriceOption] ==>
      forall i, j :: 0 <= i < j < |s| ==> s[i].startDate.GetOr(now) <= s[j].startDate.GetOr(now)
  {
    if option == CustomerNameOption {
      forall i, j | 0 <= i < j < |s|
        ensures var a, b := s[i].customerName.GetOr(""), s[j].customerName.GetOr("");
                a == b || TextLess(a, b)
      {
        assert !KeyLess(SortKey(option, now)(s[j]), SortKey(option, now)(s[i]));
        TextLessTotal(s[i].customerName.GetOr(""), s[j].customerName.GetOr(""));
      }
    }
  }

  datatype Status = Active | Upcoming | Completed

  /** `isCurrentReservation`: a missing date counts as now, so a reservation
      without dates is current; a current reservation is not upcoming. */
  predicate IsCurrentReservation(r: Reservation, now: int)
    ensures r.startDate.None? && r.endDate.None? ==> IsCurrentReservation(r, now)
    ensures IsCurrentReservation(r, now) ==> r.startDate.GetOr(now) <= r.endDate.GetOr(now)
    ensures IsCurrentReservation(r, now) ==> !IsUpcomingReservation(r, now)
  {
    var start := r.startDate.GetOr(now);
    var end := r.endDate.GetOr(now);
    start <= now && now <= end
  }

  /** `isUpcomingReservation`: only a reservation with a start date after now. */
  predicate IsUpcomingReservation(r: Reservation, now: int)
    ensures IsUpcomingReservation(r, now) ==> r.startDate.Some? && r.startDate.value > now
  {
    r.startDate.GetOr(now) > now
  }

  /** The label chosen in the row: the current test first, then the upcoming one. */
  function StatusOf(r: Reservation, now: int): (st: Status)
    ensures st == Active <==> IsCurrentReservation(r, now)
    ensures st == Upcoming <==> IsUpcomingReservation(r, now)
    ensures st == Completed <==> r.startDate.GetOr(now) <= now && r.endDate.GetOr(now) < now
  {
    if IsCurrentReservation(r, now) then Active
    else if IsUpcomingReservation(r, now) then Upcoming
    else Completed
  }

  /** Deleting by identity removes exactly the chosen reservation. */
  lemma DeleteRemovesExactlyOne(rs: seq<Reservation>, r: Reservation)
    requires DistinctIds(rs, ReservationId) && r in rs
    ensures var out := Filter(rs, ReservationIsNot(r.id));
      && r !in out
      && (forall x :: x in out <==> x in rs && x != r)
      && multiset(out) == multiset(rs) - multiset{r}
      && |out| == |rs| - 1
  {
    var out := Filter(rs, ReservationIsNot(r.id));
    DistinctIdsOccurOnce(rs, ReservationId, r);
    forall x | x in rs && x.id == r.id
      ensures x == r
    {
      DistinctIdsSameRecord(rs, ReservationId, x, r);
    }
    assert multiset(out) == multiset(rs) - multiset{r};
    assert |multiset(out)| == |multiset(rs)| - 1;
  }

  class ReservationListView {
    const context: Context
    /** The results of the fetch request. */
    var reservations: seq<Reservation>
    var searchText: string
    var selectedSortOption: string
    var showingDeleteAlert: bool
    var reservationToDelete: Option<Reservation>

    ghost predicate Valid()
      reads this, context
    {
      context.Valid() && reservations == context.reservations
    }

    constructor (context: Context)
      requires context.Valid()
      ensures Valid() && this.context == context
      ensures searchText == [] && selectedSortOption == StartDateOption
      ensures !showingDeleteAlert && reservationToDelete == None
    {
      this.context := context;
      reservations := context.reservations;
      searchText := [];
      selectedSortOption := StartDateOption;
      showingDeleteAlert := false;
      reservationToDelete := None;
    }

    /** `filteredReservations`: a copy of the fetched list, filtered by the
        search text, then sorted by the selected option. `now`
        stands for the `Date()` that replaces a missing date. */
    method FilteredReservations(now: int) returns (filtered: seq<Reservation>)
      ensures multiset(filtered) == multiset(Searched(reservations, searchText))
      ensures SortedBy(filtered, SortKey(selectedSortOption, now))
    {
      filtered := reservations;
      if searchText != [] {
        filtered := Filter(filtered, SearchFilter(searchText));
      }
      filtered := SortedCopy(filtered, SortKey(selectedSortOption, now));
    }

    /** `deleteReservation`: the reservation leaves the store and the fetched
        list, and the pending deletion is cleared. A failed save is only
        logged, so its outcome changes nothing here. */
    method DeleteReservation(r: Reservation)
      requires Valid()
      modifies this`reservations, this`reservationToDelete, context
      ensures Valid()
      ensures context.reservations == Filter(old(context.reservations), ReservationIsNot(r.id))
      ensures context.cars == old(context.cars)
      ensures reservationToDelete == None
    {
      context.DeleteReservation(r.id);
      reservations := context.reservations;
      reservationToDelete := None;
    }
  }
}
