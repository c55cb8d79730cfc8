/** The managed-object context the views share, reduced to the records it
    holds. Inserting gives a record a fresh identity; deleting removes the
    record with a given identity. Whether `save()` succeeds is decided by the
    caller (see the reservation form). */
module Store {
  import opened Records
  import opened Seqs

  class Context {
    var cars: seq<Car>
    var reservations: seq<Reservation>
    var nextId: nat

    ghost predicate Valid()
      reads this
    {
      && DistinctIds(cars, CarId)
      && DistinctIds(reservations, ReservationId)
      && (forall i :: 0 <= i < |cars| ==> cars[i].id < nextId)
      && (forall i :: 0 <= i < |reservations| ==> reservations[i].id < nextId)
    }

    constructor ()
      ensures Valid()
      ensures cars == [] && reservations == []
    {
      cars, reservations, nextId := [], [], 0;
    }

    /** `Car(context:)` followed by the attribute assignments. */
    method InsertCar(c: Car) returns (inserted: Car)
      requires Valid()
      modifies this
      ensures Valid()
      ensures inserted == c.(id := old(nextId))
      ensures cars == old(cars) + [inserted]
      ensures reservations == old(reservations)
    {
      inserted := c.(id := nextId);
      cars := cars + [inserted];
      nextId := nextId + 1;
    }

    /** `Reservation(context:)` followed by the attribute assignments. */
    method InsertReservation(r: Reservation) returns (inserted: Reservation)
      requires Valid()
      modifies this
      ensures Valid()
      ensures inserted == r.(id := old(nextId))
      ensures reservations == old(reservations) + [inserted]
      ensures cars == old(cars)
    {
      inserted := r.(id := nextId);
      reservations := reservations + [inserted];
      nextId := nextId + 1;
    }

    /** `delete(_:)` of a car. */
    method DeleteCar(id: nat)
      requires Valid()
      modifies this
      ensures Valid()
      ensures cars == Filter(old(cars), CarNotIn({id}))
      ensures reservations == old(reservations) && nextId == old(nextId)
    {
      cars := Filter(cars, CarNotIn({id}));
      FilterKeepsDistinct(old(cars), CarNotIn({id}), CarId);
    }

    /** `delete(_:)` of a reservation. */
    method DeleteReservation(id: nat)
      requires Valid()
      modifies this
      ensures Valid()
      ensures reservations == Filter(old(reservations), ReservationIsNot(id))
      ensures cars == old(cars) && nextId == old(nextId)
    {
      reservations := Filter(reservations, ReservationIsNot(id));
      FilterKeepsDistinct(old(reservations), ReservationIsNot(id), ReservationId);
    }
  }

  lemma DistinctTail<T>(s: seq<T>, id: T -> nat)
    requires s != [] && DistinctIds(s, id)
    ensures DistinctIds(s[1..], id)
  {
    forall i, j | 0 <= i < j < |s| - 1
      ensures id(s[1..][i]) != id(s[1..][j])
    {
      assert s[1..][i] == s[i + 1] && s[1..][j] == s[j + 1];
    }
  }

  lemma DistinctCons<T>(x: T, rest: seq<T>, id: T -> nat)
    requires DistinctIds(rest, id)
    requires forall k :: 0 <= k < |rest| ==> id(rest[k]) != id(x)
    ensures DistinctIds([x] + rest, id)
  {
    var r := [x] + rest;
    forall i, j | 0 <= i < j < |r|
      ensures id(r[i]) != id(r[j])
    {
      assert r[j] == rest[j - 1];
      if i > 0 {
        assert r[i] == rest[i - 1];
      }
    }
  }

  /** Two records with one identity are the same record. */
  lemma DistinctIdsSameRecord<T>(s: seq<T>, id: T -> nat, x: T, y: T)
    requires DistinctIds(s, id) && x in s && y in s && id(x) == id(y)
    ensures x == y
  {
    var i :| 0 <= i < |s| && s[i] == x;
    var j :| 0 <= j < |s| && s[j] == y;
    assert !(i < j) && !(j < i);
  }

  /** Under distinct identities every record occurs once. */
  lemma {:induction false} DistinctIdsOccurOnce<T>(s: seq<T>, id: T -> nat, x: T)
    requires DistinctIds(s, id) && x in s
    ensures multiset(s)[x] == 1
  {
    assert s == [s[0]] + s[1..];
    DistinctTail(s, id);
    if s[0] == x {
      forall m | 0 <= m < |s[1..]|
        ensures s[1..][m] != x
      {
        assert id(s[0]) != id(s[m + 1]);
      }
    } else {
      DistinctIdsOccurOnce(s[1..], id, x);
    }
  }

  /** Removing records keeps identities distinct. */
  lemma {:induction false} FilterKeepsDistinct<T(!new)>(s: seq<T>, p: T -> bool, id: T -> nat)
    requires DistinctIds(s, id)
    ensures DistinctIds(Filter(s, p), id)
  {
    if s != [] {
      DistinctTail(s, id);
      FilterKeepsDistinct(s[1..], p, id);
      var rest := Filter(s[1..], p);
      if p(s[0]) {
        forall k | 0 <= k < |rest|
          ensures id(rest[k]) != id(s[0])
        {
          assert rest[k] in s[1..];
          var m :| 0 <= m < |s[1..]| && s[1..][m] == rest[k];
          assert s[m + 1] == rest[k];
        }
        DistinctCons(s[0], rest, id);
      }
    }
  }
}
