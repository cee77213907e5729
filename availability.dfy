/** `TripAvailabilitySerializer.get_dates_availability` (station/serializers.py):
    the trip and up to four later runs of the same train on the same route,
    each with its own per-class seat table priced for the passenger count. */
module TripAvailability {
  import opened Common
  import opened Entities
  import opened Inventory
  import Schedule

  /** One class of one run, after the loop has added the price for the
      passengers (in units of 10^-4: base price times multiplier times count)
      and whether enough seats are free. */
  datatype ClassOffer = ClassOffer(
    totalSeats: int,
    bookedSeats: int,
    availableSeats: int,
    fareMultiplier: int,
    priceForPassengers: int,
    hasEnoughSeats: bool)

  /** One element of the result list. */
  datatype DateEntry = DateEntry(
    tripId: TripId,
    departure: int,
    arrival: int,
    isAvailable: bool,
    classes: map<string, ClassOffer>)

  /** Runs that the query of `get_dates_availability` keeps: same route, same
      train, leaving no earlier than `trip`. */
  predicate LaterRun(trip: Trip, other: Trip)
  {
    other.route.id == trip.route.id && other.train == trip.train && other.departure >= trip.departure
  }

  predicate SortedByDeparture(s: seq<Trip>)
  {
    forall i, j :: 0 <= i < j < |s| ==> s[i].departure <= s[j].departure
  }

  /** Places `t` before the first run that leaves no earlier than it. */
  function InsertByDeparture(t: Trip, s: seq<Trip>): (r: seq<Trip>)
    ensures multiset(r) == multiset(s) + multiset{t}
    ensures |r| == |s| + 1
  {
    if s == [] then [t]
    else if t.departure <= s[0].departure then [t] + s
    else
      assert s == [s[0]] + s[1..];
      [s[0]] + InsertByDeparture(t, s[1..])
  }

  /** Inserting a run that leaves no earlier than `x` into runs that all
      leave no earlier than `x` keeps that bound. */
  lemma {:induction false} InsertKeepsLowerBound(t: Trip, s: seq<Trip>, x: int)
    requires x <= t.departure
    requires forall k :: 0 <= k < |s| ==> x <= s[k].departure
    ensures forall k :: 0 <= k < |InsertByDeparture(t, s)| ==> x <= InsertByDeparture(t, s)[k].departure
  {
    var r := InsertByDeparture(t, s);
    if s == [] {
    } else if t.departure <= s[0].departure {
      forall k | 0 <= k < |r|
        ensures x <= r[k].departure
      {
        if k > 0 {
          assert r[k] == s[k - 1];
        }
      }
    } else {
      var rest := s[1..];
      assert forall k :: 0 <= k < |rest| ==> rest[k] == s[k + 1];
      InsertKeepsLowerBound(t, rest, x);
      var tail := InsertByDeparture(t, rest);
      forall k | 0 <= k < |r|
        ensures x <= r[k].departure
      {
        if k > 0 {
          assert r[k] == tail[k - 1];
        }
      }
    }
  }

  lemma {:induction false} InsertKeepsSorted(t: Trip, s: seq<Trip>)
    requires SortedByDeparture(s)
    ensures SortedByDeparture(InsertByDeparture(t, s))
  {
    if s != [] && t.departure > s[0].departure {
      var rest := s[1..];
      assert SortedByDeparture(rest) by {
        forall i, j | 0 <= i < j < |rest|
          ensures rest[i].departure <= rest[j].departure
        {
          assert rest[i] == s[i + 1] && rest[j] == s[j + 1];
        }
      }
      InsertKeepsSorted(t, rest);
      assert forall k :: 0 <= k < |rest| ==> rest[k] == s[k + 1];
      InsertKeepsLowerBound(t, rest, s[0].departure);
      var tail := InsertByDeparture(t, rest);
      var r := [s[0]] + tail;
      forall i, j | 0 <= i < j < |r|
        ensures r[i].departure <= r[j].departure
      {
        assert r[j] == tail[j - 1];
        if i > 0 {
          assert r[i] == tail[i - 1];
        }
      }
    }
  }

  /** `.order_by("departure_time")`: the same runs, sorted by departure. */
  function SortByDeparture(s: seq<Trip>): (r: seq<Trip>)
    ensures multiset(r) == multiset(s)
    ensures |r| == |s|
  {
    if s == [] then []
    else
      assert s == [s[0]] + s[1..];
      InsertByDeparture(s[0], SortByDeparture(s[1..]))
  }

  lemma {:induction false} SortIsSorted(s: seq<Trip>)
    ensures SortedByDeparture(SortByDeparture(s))
  {
    if s != [] {
      SortIsSorted(s[1..]);
      InsertKeepsSorted(s[0], SortByDeparture(s[1..]));
    }
  }

  /** Sorting keeps every run it lists from the input. */
  lemma SortedMembers(s: seq<Trip>)
    ensures forall i :: 0 <= i < |SortByDeparture(s)| ==> SortByDeparture(s)[i] in s
  {
    var r := SortByDeparture(s);
    forall i | 0 <= i < |r|
      ensures r[i] in s
    {
      assert r[i] in multiset(r);
    }
  }

  /** The query of `get_dates_availability`: the later runs, ordered by
      departure, the first five. */
  function Candidates(trip: Trip, trips: seq<Trip>): (r: seq<Trip>)
    ensures |r| <= 5
  {
    Take(SortByDeparture(Filter(trips, (o: Trip) => LaterRun(trip, o))), 5)
  }

  /** The candidate runs are stored runs of the same train and route that
      leave no earlier than the trip, in departure order; the trip itself,
      when stored, makes the list non-empty. */
  lemma CandidatesProperties(trip: Trip, trips: seq<Trip>)
    ensures forall i :: 0 <= i < |Candidates(trip, trips)| ==>
      Candidates(trip, trips)[i] in trips && LaterRun(trip, Candidates(trip, trips)[i])
    ensures SortedByDeparture(Candidates(trip, trips))
    ensures trip in trips ==> |Candidates(trip, trips)| >= 1
  {
    var p := (o: Trip) => LaterRun(trip, o);
    var f := Filter(trips, p);
    var s := SortByDeparture(f);
    var r := Candidates(trip, trips);
    FilterMembers(trips, p);
    SortIsSorted(f);
    SortedMembers(f);
    forall i | 0 <= i < |r|
      ensures r[i] in trips && LaterRun(trip, r[i])
    {
      assert r[i] == s[i];
      var m :| 0 <= m < |f| && f[m] == s[i];
    }
    if trip in trips {
      var k :| 0 <= k < |trips| && trips[k] == trip;
      assert p(trips[k]);
      assert trip in f;
      assert |s| >= 1;
    }
  }

  /** `[:5]` keeps the earliest later runs: a stored later run that is left
      out means five runs are listed, none of them leaving after it. */
  lemma CandidatesFirstFive(trip: Trip, trips: seq<Trip>, o: Trip)
    requires o in trips && LaterRun(trip, o) && o !in Candidates(trip, trips)
    ensures |Candidates(trip, trips)| == 5
    ensures forall i :: 0 <= i < 5 ==> Candidates(trip, trips)[i].departure <= o.departure
  {
    var p := (x: Trip) => LaterRun(trip, x);
    var f := Filter(trips, p);
    var s := SortByDeparture(f);
    FilterMembers(trips, p);
    SortIsSorted(f);
    var k :| 0 <= k < |trips| && trips[k] == o;
    assert p(trips[k]);
    assert o in multiset(s);
    var j :| 0 <= j < |s| && s[j] == o;
    assert j >= 5;
  }

  /** With the schedule free of overlaps and every run taking time, the trip
      itself is listed: no other run of its train leaves with it. */
  lemma CandidatesListTrip(trip: Trip, trips: seq<Trip>)
    requires trip in trips
    requires Schedule.NoOverlaps(trips)
    requires forall i :: 0 <= i < |trips| ==> trips[i].departure < trips[i].arrival
    ensures trip in Candidates(trip, trips)
  {
    var p := (x: Trip) => LaterRun(trip, x);
    var f := Filter(trips, p);
    var s := SortByDeparture(f);
    FilterMembers(trips, p);
    SortIsSorted(f);
    SortedMembers(f);
    var k :| 0 <= k < |trips| && trips[k] == trip;
    assert p(trips[k]);
    assert trip in multiset(s);
    var j :| 0 <= j < |s| && s[j] == trip;
    assert s[0].departure <= trip.departure;
    assert s[0] in trips && p(s[0]) by {
      assert s[0] in multiset(f);
    }
    var m :| 0 <= m < |trips| && trips[m] == s[0];
    assert Schedule.Overlaps(trips[m], trips[k]);
    assert s[0] == trip;
    assert Candidates(trip, trips)[0] == s[0];
  }

  /** The class entry with the price and the seat check added. */
  function Offer(info: ClassInfo, basePrice: int, n: int): ClassOffer
  {
    ClassOffer(info.totalSeats, info.bookedSeats, info.availableSeats, info.fareMultiplier,
               basePrice * info.fareMultiplier * n, info.availableSeats >= n)
  }

  /** A class entry the loop has not reached yet: the two added keys are
      still missing (read here as zero and false). */
  function Unpriced(info: ClassInfo): ClassOffer
  {
    ClassOffer(info.totalSeats, info.bookedSeats, info.availableSeats, info.fareMultiplier, 0, false)
  }

  /** The table with every class except the `pending` ones priced. */
  function Priced(stats: map<string, ClassInfo>, pending: set<string>, basePrice: int, n: int): map<string, ClassOffer>
  {
    map c | c in stats :: if c in pending then Unpriced(stats[c]) else Offer(stats[c], basePrice, n)
  }

  lemma PricedStep(stats: map<string, ClassInfo>, pending: set<string>, basePrice: int, n: int, c: string)
    requires c in pending && pending <= stats.Keys
    ensures Priced(stats, pending - {c}, basePrice, n)
      == Priced(stats, pending, basePrice, n)[c := Offer(stats[c], basePrice, n)]
  {
    UpdatedAt(Priced(stats, pending, basePrice, n), Priced(stats, pending - {c}, basePrice, n), c);
  }

  /** The inner loop over `class_stats.items()`, which adds
      `price_for_passengers` and `has_enough_seats` to every class entry. */
  method PriceClasses(stats: map<string, ClassInfo>, basePrice: int, n: int) returns (classes: map<string, ClassOffer>)
    ensures classes.Keys == stats.Keys
    ensures forall c :: c in stats ==> classes[c] == Offer(stats[c], basePrice, n)
  {
    var pending := stats.Keys;
    classes := map c | c in stats :: Unpriced(stats[c]);
    while pending != {}
      invariant pending <= stats.Keys
      invariant classes == Priced(stats, pending, basePrice, n)
      decreases |pending|
    {
      var c :| c in pending;
      PricedStep(stats, pending, basePrice, n, c);
      var info := stats[c];
      classes := classes[c := Offer(info, basePrice, n)];
      pending := pending - {c};
    }
  }

  /** The entry of one run: its class table for its own departure date. */
  function EntryFor(t: Trip, wagons: seq<Wagon>, ts: seq<Ticket>, n: int): DateEntry
  {
    var stats := ClassStats(t, wagons, ts, DayOf(t.departure));
    DateEntry(t.id, t.departure, t.arrival, IsAvailableIn(stats, n, None),
              map c | c in stats :: Offer(stats[c], t.basePrice, n))
  }

  /** The body of the loop for one run: its class table for its own date,
      the `any(...)` over the classes, then the pricing loop. */
  method BuildEntry(t: Trip, wagons: seq<Wagon>, tickets: seq<Ticket>, n: int) returns (e: DateEntry)
    ensures e == EntryFor(t, wagons, tickets, n)
  {
    var stats := AvailableSeatsByClass(t, wagons, tickets, Some(DayOf(t.departure)));
    var isAvailable := exists c :: c in stats && stats[c].availableSeats >= n;
    var classes := PriceClasses(stats, t.basePrice, n);
    SameTable(map c | c in stats :: Offer(stats[c], t.basePrice, n), classes);
    e := DateEntry(t.id, t.departure, t.arrival, isAvailable, classes);
  }

  /** `get_dates_availability` with `passengers_count` = `n`. */
  method DatesAvailability(trip: Trip, trips: seq<Trip>, wagons: seq<Wagon>, tickets: seq<Ticket>, n: int)
    returns (result: seq<DateEntry>)
    ensures |result| == |Candidates(trip, trips)|
    ensures forall i :: 0 <= i < |result| ==> result[i] == EntryFor(Candidates(trip, trips)[i], wagons, tickets, n)
  {
    var runs := Candidates(trip, trips);
    result := [];
    for i := 0 to |runs|
      invariant |result| == i
      invariant forall j :: 0 <= j < i ==> result[j] == EntryFor(runs[j], wagons, tickets, n)
    {
      var e := BuildEntry(runs[i], wagons, tickets, n);
      result := result + [e];
    }
  }

  /** What each entry reports: the run is available exactly when some class
      has enough free seats; each class has enough seats exactly when its
      free count reaches the passenger count; its price is base price times
      multiplier times count; and, the table being taken on the run's own
      date, its booked count is the run's tickets of that class. */
  lemma EntryMeaning(t: Trip, wagons: seq<Wagon>, ts: seq<Ticket>, n: int, c: string)
    ensures EntryFor(t, wagons, ts, n).isAvailable
      <==> exists k :: 0 <= k < |wagons| && wagons[k].train == t.train
             && ClassSeats(TrainWagons(wagons, t.train), wagons[k].wtype.name)
                - BookedSeats(t, ts, wagons[k].wtype.name, DayOf(t.departure)) >= n
    ensures c in EntryFor(t, wagons, ts, n).classes ==>
      var o := EntryFor(t, wagons, ts, n).classes[c];
      && o.hasEnoughSeats == (o.availableSeats >= n)
      && o.priceForPassengers == t.basePrice * o.fareMultiplier * n
      && o.bookedSeats == |ClassTickets(ts, t.id, c)|
      && o.availableSeats == o.totalSeats - o.bookedSeats
  {
    AnyClassAvailability(t, wagons, ts, n, None, Some(DayOf(t.departure)));
    if c in EntryFor(t, wagons, ts, n).classes {
      ClassStatsEntry(t, wagons, ts, DayOf(t.departure), c);
    }
  }
}
