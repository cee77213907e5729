/** The seat lock: why the seat counts of station/models.py never go below
    zero for a trip. The unique constraint on (trip, wagon, seat_number) and
    the admission rules of `Ticket.clean` place every ticket of a trip on its
    own seat of the trip's train, and a train has only so many seats. */
module SeatLock {
  import opened Common
  import opened Entities
  import opened Inventory

  /** The seat keys taken by a list of tickets. */
  function Keys(ts: seq<Ticket>): set<SeatKey>
  {
    if ts == [] then {} else Keys(ts[..|ts| - 1]) + {KeyOf(ts[|ts| - 1])}
  }

  lemma {:induction false} KeysMember(ts: seq<Ticket>, k: SeatKey)
    ensures k in Keys(ts) <==> exists i :: 0 <= i < |ts| && KeyOf(ts[i]) == k
  {
    if ts != [] {
      var init := ts[..|ts| - 1];
      KeysMember(init, k);
      if k in Keys(init) {
        var i :| 0 <= i < |init| && KeyOf(init[i]) == k;
        assert KeyOf(ts[i]) == k;
      }
      if i :| 0 <= i < |ts| && KeyOf(ts[i]) == k {
        if i < |init| {
          assert KeyOf(init[i]) == k;
        }
      }
    }
  }

  /** Tickets with pairwise different seat keys take as many keys as there
      are tickets. */
  lemma {:induction false} UniqueKeysCount(ts: seq<Ticket>)
    requires UniqueSeats(ts)
    ensures |Keys(ts)| == |ts|
  {
    if ts != [] {
      var init := ts[..|ts| - 1];
      assert UniqueSeats(init) by {
        forall i, j | 0 <= i < j < |init|
          ensures KeyOf(init[i]) != KeyOf(init[j])
        {
          assert init[i] == ts[i] && init[j] == ts[j];
        }
      }
      UniqueKeysCount(init);
      KeysMember(init, KeyOf(ts[|ts| - 1]));
    }
  }

  /** Filtering keeps seat keys pairwise different. */
  lemma {:induction false} FilterKeepsUnique(ts: seq<Ticket>, p: Ticket -> bool)
    requires UniqueSeats(ts)
    ensures UniqueSeats(Filter(ts, p))
  {
    if ts != [] {
      var init, t := ts[..|ts| - 1], ts[|ts| - 1];
      assert UniqueSeats(init) by {
        forall i, j | 0 <= i < j < |init|
          ensures KeyOf(init[i]) != KeyOf(init[j])
        {
          assert init[i] == ts[i] && init[j] == ts[j];
        }
      }
      FilterKeepsUnique(init, p);
      var r := Filter(init, p);
      if p(t) {
        FilterMembers(init, p);
        forall i | 0 <= i < |r|
          ensures KeyOf(r[i]) != KeyOf(t)
        {
          var j :| 0 <= j < |init| && init[j] == r[i];
          assert ts[j] == r[i];
        }
        assert Filter(ts, p) == r + [t];
      } else {
        assert Filter(ts, p) == r;
      }
    }
  }

  /** The seats 1..n of wagon `w` on trip `trip`. */
  function SeatRange(trip: TripId, w: WagonId, n: nat): set<SeatKey>
  {
    if n == 0 then {} else SeatRange(trip, w, n - 1) + {SeatKey(trip, w, n)}
  }

  lemma {:induction false} SeatRangeMember(trip: TripId, w: WagonId, n: nat, k: SeatKey)
    ensures k in SeatRange(trip, w, n) <==> k.trip == trip && k.wagon == w && 1 <= k.seat <= n
  {
    if n > 0 {
      SeatRangeMember(trip, w, n - 1, k);
    }
  }

  lemma {:induction false} SeatRangeSize(trip: TripId, w: WagonId, n: nat)
    ensures |SeatRange(trip, w, n)| == n
  {
    if n > 0 {
      SeatRangeSize(trip, w, n - 1);
      SeatRangeMember(trip, w, n - 1, SeatKey(trip, w, n));
    }
  }

  /** Every seat of every wagon of `ws` on trip `trip`. */
  function Slots(trip: TripId, ws: seq<Wagon>): set<SeatKey>
  {
    if ws == [] then {}
    else Slots(trip, ws[..|ws| - 1]) + SeatRange(trip, ws[|ws| - 1].id, ws[|ws| - 1].seats)
  }

  lemma {:induction false} SlotsSize(trip: TripId, ws: seq<Wagon>)
    ensures |Slots(trip, ws)| <= SumSeats(ws)
  {
    if ws != [] {
      var init, w := ws[..|ws| - 1], ws[|ws| - 1];
      SlotsSize(trip, init);
      SeatRangeSize(trip, w.id, w.seats);
      var a, b := Slots(trip, init), SeatRange(trip, w.id, w.seats);
      assert |a + b| + |a * b| == |a| + |b|;
    }
  }

  lemma {:induction false} SlotsMember(trip: TripId, ws: seq<Wagon>, k: nat, s: int)
    requires k < |ws| && 1 <= s <= ws[k].seats
    ensures SeatKey(trip, ws[k].id, s) in Slots(trip, ws)
  {
    var init := ws[..|ws| - 1];
    if k == |ws| - 1 {
      SeatRangeMember(trip, ws[k].id, ws[k].seats, SeatKey(trip, ws[k].id, s));
    } else {
      assert init[k] == ws[k];
      SlotsMember(trip, init, k, s);
    }
  }

  /** A subset is no larger than its superset. */
  lemma {:induction false} SubsetSize<T>(a: set<T>, b: set<T>)
    requires a <= b
    ensures |a| <= |b|
  {
    assert b == a + (b - a);
    assert |a * (b - a)| == 0 by {
      assert a * (b - a) == {};
    }
    assert |a + (b - a)| + |a * (b - a)| == |a| + |b - a|;
  }

  /** The counting argument: tickets with pairwise different keys, each on a
      seat of one of the wagons `ws` on trip `trip`, are at most as many as
      those wagons have seats. */
  lemma TicketsWithinSeats(trip: TripId, ws: seq<Wagon>, ts: seq<Ticket>)
    requires UniqueSeats(ts)
    requires forall i :: 0 <= i < |ts| ==> KeyOf(ts[i]) in Slots(trip, ws)
    ensures |ts| <= SumSeats(ws)
  {
    UniqueKeysCount(ts);
    forall k | k in Keys(ts)
      ensures k in Slots(trip, ws)
    {
      KeysMember(ts, k);
    }
    SubsetSize(Keys(ts), Slots(trip, ws));
    SlotsSize(trip, ws);
  }

  /** The stored rows agree: a ticket's embedded trip and wagon are the rows
      with those ids. */
  predicate RowsAgree(trips: seq<Trip>, wagons: seq<Wagon>, ts: seq<Ticket>)
  {
    && (forall i :: 0 <= i < |ts| ==> ts[i].trip in trips && ts[i].wagon in wagons)
    && (forall i, j :: 0 <= i < |trips| && 0 <= j < |trips| && trips[i].id == trips[j].id ==> trips[i] == trips[j])
    && (forall i, j :: 0 <= i < |wagons| && 0 <= j < |wagons| && wagons[i].id == wagons[j].id ==> wagons[i] == wagons[j])
  }

  /** The database invariant the booking paths keep: foreign keys resolve,
      seat keys are unique and every ticket is admissible. */
  predicate Consistent(trips: seq<Trip>, wagons: seq<Wagon>, ts: seq<Ticket>)
  {
    RowsAgree(trips, wagons, ts) && UniqueSeats(ts) && AllAdmissible(ts)
  }

  /** `Wagon.available_seats(trip)` is never negative for a stored trip. */
  lemma WagonAvailableNonNegative(trips: seq<Trip>, wagons: seq<Wagon>, ts: seq<Ticket>, k: nat, trip: Trip)
    requires Consistent(trips, wagons, ts)
    requires k < |wagons|
    ensures WagonAvailableSeats(wagons[k], ts, Some(trip.id)) >= 0
  {
    var w := wagons[k];
    var p := (t: Ticket) => t.wagon.id == w.id && (Some(trip.id).None? || t.trip.id == Some(trip.id).value);
    var sold := WagonTickets(ts, w.id, Some(trip.id));
    FilterKeepsUnique(ts, p);
    FilterMembers(ts, p);
    forall i | 0 <= i < |sold|
      ensures KeyOf(sold[i]) in Slots(trip.id, [w])
    {
      var t := sold[i];
      var j :| 0 <= j < |ts| && ts[j] == t;
      var m :| 0 <= m < |wagons| && wagons[m] == t.wagon;
      assert Admissible(ts[j]);
      SlotsMember(trip.id, [w], 0, t.seatNumber);
    }
    TicketsWithinSeats(trip.id, [w], sold);
    assert [w][..0] == [];
  }

  /** `Trip.available_seats` is never negative for a stored trip. */
  lemma TripAvailableNonNegative(trips: seq<Trip>, wagons: seq<Wagon>, ts: seq<Ticket>, trip: Trip)
    requires Consistent(trips, wagons, ts)
    requires trip in trips
    ensures TripAvailableSeats(trip, wagons, ts) >= 0
  {
    var ws := TrainWagons(wagons, trip.train);
    var p := (t: Ticket) => t.trip.id == trip.id;
    var sold := TripTickets(ts, trip.id);
    FilterKeepsUnique(ts, p);
    FilterMembers(ts, p);
    FilterMembers(wagons, (w: Wagon) => w.train == trip.train);
    forall i | 0 <= i < |sold|
      ensures KeyOf(sold[i]) in Slots(trip.id, ws)
    {
      var t := sold[i];
      var j :| 0 <= j < |ts| && ts[j] == t;
      assert Admissible(ts[j]);
      var a :| 0 <= a < |trips| && trips[a] == t.trip;
      var b :| 0 <= b < |trips| && trips[b] == trip;
      assert t.trip == trip;
      var m :| 0 <= m < |wagons| && wagons[m] == t.wagon;
      assert t.wagon in ws;
      var n :| 0 <= n < |ws| && ws[n] == t.wagon;
      SlotsMember(trip.id, ws, n, t.seatNumber);
    }
    TicketsWithinSeats(trip.id, ws, sold);
  }

  /** No class of the availability table is booked beyond its seats: on the
      departure date the available count is never negative. */
  lemma ClassAvailableNonNegative(trips: seq<Trip>, wagons: seq<Wagon>, ts: seq<Ticket>, trip: Trip, date: int, c: string)
    requires Consistent(trips, wagons, ts)
    requires trip in trips
    requires c in ClassStats(trip, wagons, ts, date)
    ensures ClassStats(trip, wagons, ts, date)[c].availableSeats >= 0
  {
    var ws := TrainWagons(wagons, trip.train);
    var cw := ClassWagons(ws, c);
    var p := (t: Ticket) => t.trip.id == trip.id && t.wagon.wtype.name == c;
    var sold := ClassTickets(ts, trip.id, c);
    ClassStatsEntry(trip, wagons, ts, date, c);
    FilterKeepsUnique(ts, p);
    FilterMembers(ts, p);
    FilterMembers(wagons, (w: Wagon) => w.train == trip.train);
    FilterMembers(ws, (w: Wagon) => w.wtype.name == c);
    forall i | 0 <= i < |sold|
      ensures KeyOf(sold[i]) in Slots(trip.id, cw)
    {
      var t := sold[i];
      var j :| 0 <= j < |ts| && ts[j] == t;
      assert Admissible(ts[j]);
      var a :| 0 <= a < |trips| && trips[a] == t.trip;
      var b :| 0 <= b < |trips| && trips[b] == trip;
      assert t.trip == trip;
      var m :| 0 <= m < |wagons| && wagons[m] == t.wagon;
      assert t.wagon in ws;
      var n :| 0 <= n < |ws| && ws[n] == t.wagon;
      assert t.wagon in cw;
      var q :| 0 <= q < |cw| && cw[q] == t.wagon;
      SlotsMember(trip.id, cw, q, t.seatNumber);
    }
    TicketsWithinSeats(trip.id, cw, sold);
  }

  /** Taking a subset away leaves the rest. */
  lemma DiffSize<T>(a: set<T>, b: set<T>)
    requires b <= a
    ensures |a - b| == |a| - |b|
  {
    assert a == b + (a - b);
    assert b * (a - b) == {};
    assert |b + (a - b)| + |b * (a - b)| == |b| + |a - b|;
  }

  /** The seats of wagon `w` on trip `trip` that no ticket holds. */
  function FreeSeats(trip: TripId, w: Wagon, ts: seq<Ticket>): set<SeatKey>
  {
    SeatRange(trip, w.id, w.seats) - Keys(ts)
  }

  /** The seats sold in a stored wagon on a trip are seats of that wagon. */
  lemma WagonSoldInRange(trips: seq<Trip>, wagons: seq<Wagon>, ts: seq<Ticket>, k: nat, trip: TripId)
    requires Consistent(trips, wagons, ts)
    requires k < |wagons|
    ensures Keys(WagonTickets(ts, wagons[k].id, Some(trip))) <= SeatRange(trip, wagons[k].id, wagons[k].seats)
  {
    var w := wagons[k];
    var p := (t: Ticket) => t.wagon.id == w.id && (Some(trip).None? || t.trip.id == Some(trip).value);
    var sold := WagonTickets(ts, w.id, Some(trip));
    FilterMembers(ts, p);
    forall key | key in Keys(sold)
      ensures key in SeatRange(trip, w.id, w.seats)
    {
      KeysMember(sold, key);
      var i :| 0 <= i < |sold| && KeyOf(sold[i]) == key;
      var t := sold[i];
      var j :| 0 <= j < |ts| && ts[j] == t;
      assert Admissible(ts[j]);
      var m :| 0 <= m < |wagons| && wagons[m] == t.wagon;
      assert t.wagon == w;
      SeatRangeMember(trip, w.id, w.seats, key);
    }
  }

  /** A seat of the wagon on the trip that some ticket holds is held by a
      ticket of that wagon and trip. */
  lemma WagonHeldAreSold(w: Wagon, ts: seq<Ticket>, trip: TripId)
    ensures FreeSeats(trip, w, ts) == SeatRange(trip, w.id, w.seats) - Keys(WagonTickets(ts, w.id, Some(trip)))
  {
    var p := (t: Ticket) => t.wagon.id == w.id && (Some(trip).None? || t.trip.id == Some(trip).value);
    var sold := WagonTickets(ts, w.id, Some(trip));
    FilterMembers(ts, p);
    forall key | key in Keys(sold)
      ensures key in Keys(ts)
    {
      KeysMember(sold, key);
      KeysMember(ts, key);
    }
    forall key | key in SeatRange(trip, w.id, w.seats) && key in Keys(ts)
      ensures key in Keys(sold)
    {
      SeatRangeMember(trip, w.id, w.seats, key);
      KeysMember(ts, key);
      var j :| 0 <= j < |ts| && KeyOf(ts[j]) == key;
      assert p(ts[j]);
      var i :| 0 <= i < |sold| && sold[i] == ts[j];
      KeysMember(sold, key);
    }
  }

  /** For a stored wagon, `Wagon.available_seats(trip)` is exactly the
      number of its seats on that trip that no ticket holds. */
  lemma WagonAvailableCountsFreeSeats(trips: seq<Trip>, wagons: seq<Wagon>, ts: seq<Ticket>, k: nat, trip: Trip)
    requires Consistent(trips, wagons, ts)
    requires k < |wagons|
    ensures WagonAvailableSeats(wagons[k], ts, Some(trip.id)) == |FreeSeats(trip.id, wagons[k], ts)|
  {
    var w := wagons[k];
    var sold := WagonTickets(ts, w.id, Some(trip.id));
    WagonSoldInRange(trips, wagons, ts, k, trip.id);
    WagonHeldAreSold(w, ts, trip.id);
    FilterKeepsUnique(ts, (t: Ticket) => t.wagon.id == w.id && (Some(trip.id).None? || t.trip.id == Some(trip.id).value));
    UniqueKeysCount(sold);
    SeatRangeSize(trip.id, w.id, w.seats);
    DiffSize(SeatRange(trip.id, w.id, w.seats), Keys(sold));
  }

  /** Wagon primary keys are distinct. */
  predicate WagonIdsDistinct(ws: seq<Wagon>)
  {
    forall i, j :: 0 <= i < j < |ws| ==> ws[i].id != ws[j].id
  }

  lemma {:induction false} FilterKeepsWagonIdsDistinct(ws: seq<Wagon>, p: Wagon -> bool)
    requires WagonIdsDistinct(ws)
    ensures WagonIdsDistinct(Filter(ws, p))
  {
    if ws != [] {
      var init, w := ws[..|ws| - 1], ws[|ws| - 1];
      assert WagonIdsDistinct(init) by {
        forall i, j | 0 <= i < j < |init|
          ensures init[i].id != init[j].id
        {
          assert init[i] == ws[i] && init[j] == ws[j];
        }
      }
      FilterKeepsWagonIdsDistinct(init, p);
      var r := Filter(init, p);
      if p(w) {
        FilterMembers(init, p);
        forall i | 0 <= i < |r|
          ensures r[i].id != w.id
        {
          var j :| 0 <= j < |init| && init[j] == r[i];
          assert ws[j] == r[i];
        }
        assert Filter(ws, p) == r + [w];
      } else {
        assert Filter(ws, p) == r;
      }
    }
  }

  lemma {:induction false} SlotsMemberIff(trip: TripId, ws: seq<Wagon>, key: SeatKey)
    ensures key in Slots(trip, ws) <==>
      key.trip == trip && exists i :: 0 <= i < |ws| && ws[i].id == key.wagon && 1 <= key.seat <= ws[i].seats
  {
    if ws != [] {
      var init, w := ws[..|ws| - 1], ws[|ws| - 1];
      SlotsMemberIff(trip, init, key);
      SeatRangeMember(trip, w.id, w.seats, key);
      if key.trip == trip && exists i :: 0 <= i < |ws| && ws[i].id == key.wagon && 1 <= key.seat <= ws[i].seats {
        var i :| 0 <= i < |ws| && ws[i].id == key.wagon && 1 <= key.seat <= ws[i].seats;
        if i < |init| {
          assert init[i] == ws[i];
        }
      }
      if key in Slots(trip, init) {
        var i :| 0 <= i < |init| && init[i].id == key.wagon && 1 <= key.seat <= init[i].seats;
        assert ws[i] == init[i];
      }
    }
  }

  /** With distinct wagon ids the seat slots of the wagons number exactly
      their seats. */
  lemma {:induction false} SlotsExactSize(trip: TripId, ws: seq<Wagon>)
    requires WagonIdsDistinct(ws)
    ensures |Slots(trip, ws)| == SumSeats(ws)
  {
    if ws != [] {
      var init, w := ws[..|ws| - 1], ws[|ws| - 1];
      assert WagonIdsDistinct(init) by {
        forall i, j | 0 <= i < j < |init|
          ensures init[i].id != init[j].id
        {
          assert init[i] == ws[i] && init[j] == ws[j];
        }
      }
      SlotsExactSize(trip, init);
      SeatRangeSize(trip, w.id, w.seats);
      var a, b := Slots(trip, init), SeatRange(trip, w.id, w.seats);
      forall key | key in a
        ensures key !in b
      {
        SlotsMemberIff(trip, init, key);
        SeatRangeMember(trip, w.id, w.seats, key);
        var i :| 0 <= i < |init| && init[i].id == key.wagon && 1 <= key.seat <= init[i].seats;
        assert ws[i] == init[i];
      }
      assert a * b == {};
      assert |a + b| + |a * b| == |a| + |b|;
    }
  }

  /** The seats sold on a stored trip are seats of the train's wagons. */
  lemma TripSoldInSlots(trips: seq<Trip>, wagons: seq<Wagon>, ts: seq<Ticket>, trip: Trip)
    requires Consistent(trips, wagons, ts)
    requires trip in trips
    ensures Keys(TripTickets(ts, trip.id)) <= Slots(trip.id, TrainWagons(wagons, trip.train))
  {
    var ws := TrainWagons(wagons, trip.train);
    var p := (t: Ticket) => t.trip.id == trip.id;
    var sold := TripTickets(ts, trip.id);
    FilterMembers(ts, p);
    FilterMembers(wagons, (w: Wagon) => w.train == trip.train);
    forall key | key in Keys(sold)
      ensures key in Slots(trip.id, ws)
    {
      KeysMember(sold, key);
      var i :| 0 <= i < |sold| && KeyOf(sold[i]) == key;
      var t := sold[i];
      var j :| 0 <= j < |ts| && ts[j] == t;
      assert Admissible(ts[j]);
      var a :| 0 <= a < |trips| && trips[a] == t.trip;
      var b :| 0 <= b < |trips| && trips[b] == trip;
      assert t.trip == trip;
      var m :| 0 <= m < |wagons| && wagons[m] == t.wagon;
      assert t.wagon in ws;
      var n :| 0 <= n < |ws| && ws[n] == t.wagon;
      SlotsMember(trip.id, ws, n, t.seatNumber);
    }
  }

  /** A seat of the trip that some ticket holds is held by a ticket of the
      trip. */
  lemma TripHeldAreSold(ws: seq<Wagon>, ts: seq<Ticket>, trip: TripId)
    ensures Slots(trip, ws) - Keys(ts) == Slots(trip, ws) - Keys(TripTickets(ts, trip))
  {
    var p := (t: Ticket) => t.trip.id == trip;
    var sold := TripTickets(ts, trip);
    FilterMembers(ts, p);
    forall key | key in Keys(sold)
      ensures key in Keys(ts)
    {
      KeysMember(sold, key);
      KeysMember(ts, key);
    }
    forall key | key in Slots(trip, ws) && key in Keys(ts)
      ensures key in Keys(sold)
    {
      SlotsMemberIff(trip, ws, key);
      KeysMember(ts, key);
      var j :| 0 <= j < |ts| && KeyOf(ts[j]) == key;
      assert p(ts[j]);
      var i :| 0 <= i < |sold| && sold[i] == ts[j];
      KeysMember(sold, key);
    }
  }

  /** For a stored trip whose wagons have distinct ids, `Trip.available_seats`
      is exactly the number of seats of the train's wagons on that trip that
      no ticket holds. */
  lemma TripAvailableCountsFreeSeats(trips: seq<Trip>, wagons: seq<Wagon>, ts: seq<Ticket>, trip: Trip)
    requires Consistent(trips, wagons, ts) && WagonIdsDistinct(wagons)
    requires trip in trips
    ensures TripAvailableSeats(trip, wagons, ts) == |Slots(trip.id, TrainWagons(wagons, trip.train)) - Keys(ts)|
  {
    var ws := TrainWagons(wagons, trip.train);
    var sold := TripTickets(ts, trip.id);
    TripSoldInSlots(trips, wagons, ts, trip);
    TripHeldAreSold(ws, ts, trip.id);
    FilterKeepsUnique(ts, (t: Ticket) => t.trip.id == trip.id);
    UniqueKeysCount(sold);
    FilterKeepsWagonIdsDistinct(wagons, (w: Wagon) => w.train == trip.train);
    SlotsExactSize(trip.id, ws);
    DiffSize(Slots(trip.id, ws), Keys(sold));
  }

  /** Without a trip, `Wagon.available_seats()` counts the tickets of every
      trip of the wagon, so a wagon whose seats are all sold on two trips
      reports a negative count although no seat is sold twice. */
  lemma WagonAvailableWithoutTripCanBeNegative(w: Wagon, a: Trip, b: Trip, t1: Ticket, t2: Ticket)
    requires w.seats == 1 && a.id != b.id && a.train == w.train && b.train == w.train
    requires t1.trip == a && t1.wagon == w && t1.seatNumber == 1
    requires t2.trip == b && t2.wagon == w && t2.seatNumber == 1
    ensures Consistent([a, b], [w], [t1, t2])
    ensures WagonAvailableSeats(w, [t1, t2], None) == -1
    ensures WagonAvailableSeats(w, [t1, t2], Some(a.id)) == 0
  {
    TwoTickets(t1, t2, w.id, None);
    TwoTickets(t1, t2, w.id, Some(a.id));
  }

  /** The wagon query over a two-ticket table. */
  lemma TwoTickets(t1: Ticket, t2: Ticket, w: WagonId, trip: Option<TripId>)
    ensures WagonTickets([t1, t2], w, trip)
      == (if t1.wagon.id == w && (trip.None? || t1.trip.id == trip.value) then [t1] else [])
         + (if t2.wagon.id == w && (trip.None? || t2.trip.id == trip.value) then [t2] else [])
  {
    FilterPair(t1, t2, (t: Ticket) => t.wagon.id == w && (trip.None? || t.trip.id == trip.value));
  }
}
