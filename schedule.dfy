/** Trip scheduling rules of station/models.py and station/serializers.py:
    a route joins two different stations, a trip arrives after it departs,
    and a train never runs two trips whose time intervals overlap. */
module Schedule {
  import opened Common
  import opened Entities

  datatype ScheduleError = SameStations | ArrivalNotAfterDeparture | TrainOverlap

  /** `Route.clean`: the two ends of a route must be different stations. */
  function RouteClean(r: Route): (res: Result<Route, ScheduleError>)
    ensures res.Failure? <==> r.origin.id == r.destination.id
    ensures res.Failure? ==> res.error == SameStations
    ensures res.Success? ==> res.value == r
  {
    if r.origin.id == r.destination.id then Failure(SameStations) else Success(r)
  }

  /** The half-open intervals [departure, arrival) of two trips intersect. */
  predicate Overlaps(a: Trip, b: Trip)
  {
    a.departure < b.arrival && a.arrival > b.departure
  }

  /** `other` is one of the rows the overlap query of `Trip.clean` finds for
      `t`, whose primary key is `pk` (None while `t` is unsaved, in which case
      `.exclude(id=None)` removes no row). */
  predicate Blocks(other: Trip, t: Trip, pk: Option<TripId>)
  {
    other.train == t.train
    && other.departure < t.arrival
    && other.arrival > t.departure
    && (pk.None? || other.id != pk.value)
  }

  /** The overlap test is symmetric: of two unsaved trips, each blocks the
      other or neither does. */
  lemma BlocksSymmetric(a: Trip, b: Trip)
    ensures Blocks(a, b, None) <==> Blocks(b, a, None)
  {
  }

  /** `Trip.clean`: first the time order, then the overlap query over the
      stored trips. */
  function TripClean(t: Trip, pk: Option<TripId>, trips: seq<Trip>): (res: Result<Trip, ScheduleError>)
    ensures (res.Failure? && res.error == ArrivalNotAfterDeparture) <==> t.arrival <= t.departure
    ensures (res.Failure? && res.error == TrainOverlap)
      <==> t.departure < t.arrival && exists i :: 0 <= i < |trips| && Blocks(trips[i], t, pk)
    ensures res.Failure? ==> res.error != SameStations
    ensures res.Success? ==> res.value == t
  {
    if t.arrival <= t.departure then Failure(ArrivalNotAfterDeparture)
    else if exists i :: 0 <= i < |trips| && Blocks(trips[i], t, pk) then Failure(TrainOverlap)
    else Success(t)
  }

  /** `TripSerializer.validate`: only the time order is checked. */
  function ValidateTripAttrs(attrs: Trip): (res: Result<Trip, ScheduleError>)
    ensures res.Failure? <==> attrs.arrival <= attrs.departure
    ensures res.Failure? ==> res.error == ArrivalNotAfterDeparture
    ensures res.Success? ==> res.value == attrs
  {
    if attrs.arrival <= attrs.departure then Failure(ArrivalNotAfterDeparture) else Success(attrs)
  }

  /** `Trip.duration_in_minutes`: whole minutes, rounded towards minus infinity
      as `total_seconds() // 60` is. */
  function DurationInMinutes(t: Trip): (r: int)
    ensures r * 60 <= t.arrival - t.departure < r * 60 + 60
  {
    (t.arrival - t.departure) / 60
  }

  /** No two stored trips of one train overlap in time. */
  predicate NoOverlaps(trips: seq<Trip>)
  {
    forall i, j :: 0 <= i < |trips| && 0 <= j < |trips| && i != j && trips[i].train == trips[j].train
      ==> !Overlaps(trips[i], trips[j])
  }

  /** A trip that `Trip.clean` accepts can be stored next to the existing
      ones without breaking the no-overlap invariant of its train. */
  lemma {:induction false} CleanTripKeepsScheduleDisjoint(t: Trip, trips: seq<Trip>)
    requires NoOverlaps(trips)
    requires TripClean(t, None, trips).Success?
    ensures NoOverlaps(trips + [t])
  {
    var all := trips + [t];
    forall i, j | 0 <= i < |all| && 0 <= j < |all| && i != j && all[i].train == all[j].train
      ensures !Overlaps(all[i], all[j])
    {
      if i == |trips| {
        assert !Blocks(trips[j], t, None);
      } else if j == |trips| {
        assert !Blocks(trips[i], t, None);
      }
    }
  }

  /** Re-validating a stored trip on update: the exclusion of its own id means
      it does not collide with itself. */
  lemma {:induction false} UpdateDoesNotBlockItself(trips: seq<Trip>, k: nat)
    requires NoOverlaps(trips)
    requires k < |trips|
    requires forall i :: 0 <= i < |trips| && i != k ==> trips[i].id != trips[k].id
    requires trips[k].departure < trips[k].arrival
    ensures TripClean(trips[k], Some(trips[k].id), trips) == Success(trips[k])
  {
    var t := trips[k];
    forall i | 0 <= i < |trips|
      ensures !Blocks(trips[i], t, Some(t.id))
    {
      if i != k && trips[i].train == t.train {
        assert !Overlaps(trips[i], t);
      }
    }
  }

  /** Back-to-back trips of one train (one arrives exactly when the next
      departs) are accepted in either order. */
  lemma BackToBackAccepted(a: Trip, b: Trip)
    requires a.train == b.train && a.id != b.id
    requires a.departure < a.arrival && a.arrival == b.departure && b.departure < b.arrival
    ensures TripClean(b, None, [a]) == Success(b)
    ensures TripClean(a, None, [b]) == Success(a)
  {
    assert !Blocks([a][0], b, None);
    assert !Blocks([b][0], a, None);
  }

  /** The overlap scenario: a stored 10:00-14:00 trip blocks a 13:00-17:00 trip
      of the same train, and the same times on another train do not. */
  lemma OverlapScenario(a: Trip, b: Trip)
    requires a.departure == 10 * 3600 && a.arrival == 14 * 3600
    requires b.departure == 13 * 3600 && b.arrival == 17 * 3600
    ensures a.train == b.train ==> TripClean(b, None, [a]) == Failure(TrainOverlap)
    ensures a.train != b.train ==> TripClean(b, None, [a]) == Success(b)
  {
    if a.train == b.train {
      assert Blocks([a][0], b, None);
    }
  }
}
