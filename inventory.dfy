/** Seat inventory and fares of station/models.py: seats of a train, seats
    sold per wagon and per trip, the per-class availability table built by
    `Trip.get_available_seats_by_class`, the booking-availability test built
    on it, and `Trip.calculate_price`.

    The booking database is passed in as sequences: `wagons` is the wagon
    table and `tickets` the ticket table, each in primary-key order. */
module Inventory {
  import opened Common
  import opened Entities
  import opened Money

  // ---------------------------------------------------------------- queries

  /** `trip.train.wagons.all()`. */
  function TrainWagons(wagons: seq<Wagon>, train: TrainId): seq<Wagon>
  {
    Filter(wagons, (w: Wagon) => w.train == train)
  }

  /** The wagons of one class (`type__name=wagon_class`). */
  function ClassWagons(ws: seq<Wagon>, c: string): seq<Wagon>
  {
    Filter(ws, (w: Wagon) => w.wtype.name == c)
  }

  /** `wagon.tickets`, narrowed to one trip when a trip is given. */
  function WagonTickets(ts: seq<Ticket>, w: WagonId, trip: Option<TripId>): seq<Ticket>
  {
    Filter(ts, (t: Ticket) => t.wagon.id == w && (trip.None? || t.trip.id == trip.value))
  }

  /** `trip.tickets`. */
  function TripTickets(ts: seq<Ticket>, trip: TripId): seq<Ticket>
  {
    Filter(ts, (t: Ticket) => t.trip.id == trip)
  }

  /** The tickets of one trip sold in wagons of class `c`. */
  function ClassTickets(ts: seq<Ticket>, trip: TripId, c: string): seq<Ticket>
  {
    Filter(ts, (t: Ticket) => t.trip.id == trip && t.wagon.wtype.name == c)
  }

  /** `sum(wagon.seats for wagon in ws)`. */
  function SumSeats(ws: seq<Wagon>): nat
  {
    if ws == [] then 0 else SumSeats(ws[..|ws| - 1]) + ws[|ws| - 1].seats
  }

  lemma SumSeatsSnoc(ws: seq<Wagon>, w: Wagon)
    ensures SumSeats(ws + [w]) == SumSeats(ws) + w.seats
  {
    assert (ws + [w])[..|ws|] == ws;
  }

  // ------------------------------------------------------------ seat counts

  /** `Wagon.sold_seats(trip)`. */
  function SoldSeats(w: Wagon, ts: seq<Ticket>, trip: Option<TripId>): (r: nat)
    ensures r <= |ts|
  {
    |WagonTickets(ts, w.id, trip)|
  }

  /** `Wagon.available_seats(trip)`: seats minus the tickets sold in it. */
  function WagonAvailableSeats(w: Wagon, ts: seq<Ticket>, trip: Option<TripId>): (r: int)
    ensures r + SoldSeats(w, ts, trip) == w.seats
    ensures r >= w.seats - |ts|
  {
    w.seats - SoldSeats(w, ts, trip)
  }

  /** `Trip.total_seats`. */
  function TotalSeats(trip: Trip, wagons: seq<Wagon>): nat
  {
    SumSeats(TrainWagons(wagons, trip.train))
  }

  /** `Trip.sold_tickets`. */
  function SoldTickets(trip: Trip, ts: seq<Ticket>): (r: nat)
    ensures r <= |ts|
  {
    |TripTickets(ts, trip.id)|
  }

  /** `Trip.available_seats`. */
  function TripAvailableSeats(trip: Trip, wagons: seq<Wagon>, ts: seq<Ticket>): (r: int)
    ensures r + SoldTickets(trip, ts) == TotalSeats(trip, wagons)
  {
    TotalSeats(trip, wagons) - SoldTickets(trip, ts)
  }

  // ------------------------------------------------- availability by class

  /** The distinct wagon-type names of a list of wagons. */
  function ClassNames(ws: seq<Wagon>): set<string>
  {
    if ws == [] then {} else ClassNames(ws[..|ws| - 1]) + {ws[|ws| - 1].wtype.name}
  }

  /** A name is a class of `ws` exactly when some wagon of `ws` has it. */
  lemma {:induction false} ClassNamesMember(ws: seq<Wagon>, c: string)
    ensures c in ClassNames(ws) <==> ClassWagons(ws, c) != []
  {
    if ws != [] {
      var i := |ws| - 1;
      ClassNamesMember(ws[..i], c);
      assert ws[..i + 1] == ws;
      ClassWagonsStep(ws, i, c);
    }
  }

  lemma ClassWagonsStep(ws: seq<Wagon>, i: nat, c: string)
    requires i < |ws|
    ensures ClassWagons(ws[..i + 1], c)
      == ClassWagons(ws[..i], c) + (if ws[i].wtype.name == c then [ws[i]] else [])
    ensures ClassSeats(ws[..i + 1], c) == ClassSeats(ws[..i], c) + (if ws[i].wtype.name == c then ws[i].seats else 0)
  {
    FilterSnoc(ws, i, (w: Wagon) => w.wtype.name == c);
    if ws[i].wtype.name == c {
      SumSeatsSnoc(ClassWagons(ws[..i], c), ws[i]);
    } else {
      assert ClassWagons(ws[..i + 1], c) == ClassWagons(ws[..i], c);
    }
  }

  /** One entry of the table that `get_available_seats_by_class` returns. */
  datatype ClassInfo = ClassInfo(totalSeats: int, bookedSeats: int, availableSeats: int, fareMultiplier: int)

  /** A wagon's seats are part of the seat total of any list holding it. */
  lemma {:induction false} MemberSeatsWithinSum(ws: seq<Wagon>, w: Wagon)
    requires w in ws
    ensures w.seats <= SumSeats(ws)
  {
    var init := ws[..|ws| - 1];
    if ws[|ws| - 1] != w {
      assert ws == init + [ws[|ws| - 1]];
      assert w in init;
      MemberSeatsWithinSum(init, w);
    }
  }

  /** Every wagon of the train counts towards `Trip.total_seats`. */
  lemma WagonWithinTotalSeats(trip: Trip, wagons: seq<Wagon>, k: nat)
    requires k < |wagons| && wagons[k].train == trip.train
    ensures wagons[k].seats <= TotalSeats(trip, wagons)
  {
    FilterMembers(wagons, (w: Wagon) => w.train == trip.train);
    MemberSeatsWithinSum(TrainWagons(wagons, trip.train), wagons[k]);
  }

  /** Seats of all wagons of class `c`. */
  function ClassSeats(ws: seq<Wagon>, c: string): nat
  {
    SumSeats(ClassWagons(ws, c))
  }

  /** The booked count of class `c`: this trip's tickets in that class when the
      trip departs on `travelDate`, and none otherwise (every ticket of the
      trip shares the trip's departure date). */
  function BookedSeats(trip: Trip, ts: seq<Ticket>, c: string, travelDate: int): nat
  {
    if DayOf(trip.departure) == travelDate then |ClassTickets(ts, trip.id, c)| else 0
  }

  /** `travel_date` defaults to the departure date. */
  function ResolveTravelDate(trip: Trip, travelDate: Option<int>): int
  {
    if travelDate.None? then DayOf(trip.departure) else travelDate.value
  }

  /** The fare multiplier of the first wagon of class `c` (0 when there is
      none, a case the table never asks for). */
  function ClassMultiplier(ws: seq<Wagon>, c: string): int
  {
    var cw := ClassWagons(ws, c);
    if cw == [] then 0 else cw[0].wtype.fareMultiplier
  }

  /** The entry for class `c` of the train's wagons `ws`. */
  function ClassInfoFor(trip: Trip, ws: seq<Wagon>, ts: seq<Ticket>, c: string, travelDate: int): ClassInfo
  {
    var total := ClassSeats(ws, c);
    var booked := BookedSeats(trip, ts, c, travelDate);
    ClassInfo(total, booked, total - booked, ClassMultiplier(ws, c))
  }

  /** The availability table of a trip for a travel date, defined class by
      class; `AvailableSeatsByClass` computes it. */
  function ClassStats(trip: Trip, wagons: seq<Wagon>, ts: seq<Ticket>, travelDate: int): map<string, ClassInfo>
  {
    var ws := TrainWagons(wagons, trip.train);
    map c | c in ClassNames(ws) :: ClassInfoFor(trip, ws, ts, c, travelDate)
  }

  /** The table after the first pass over the wagons `ws`: every class with
      its seat total and the multiplier of its first wagon. */
  function SeatTable(ws: seq<Wagon>): map<string, ClassInfo>
  {
    map c | c in ClassNames(ws) :: ClassInfo(ClassSeats(ws, c), 0, 0, ClassMultiplier(ws, c))
  }

  /** The table after the second pass, over the tickets `ts`. */
  function BookingTable(trip: Trip, ws: seq<Wagon>, ts: seq<Ticket>, travelDate: int): map<string, ClassInfo>
  {
    map c | c in ClassNames(ws) ::
      ClassInfo(ClassSeats(ws, c), BookedSeats(trip, ts, c, travelDate), 0, ClassMultiplier(ws, c))
  }

  /** A wagon of class `name` adds its seats to that class and, when it is
      the first of its class, fixes the class's multiplier. */
  lemma ClassGrows(ws: seq<Wagon>, i: nat)
    requires i < |ws|
    ensures var name := ws[i].wtype.name;
      && name in ClassNames(ws[..i + 1])
      && ClassSeats(ws[..i + 1], name) == ClassSeats(ws[..i], name) + ws[i].seats
      && ClassMultiplier(ws[..i + 1], name)
         == (if name in ClassNames(ws[..i]) then ClassMultiplier(ws[..i], name) else ws[i].wtype.fareMultiplier)
  {
    ClassWagonsStep(ws, i, ws[i].wtype.name);
    ClassNamesMember(ws[..i], ws[i].wtype.name);
    assert ws[..i + 1][..i] == ws[..i];
  }

  /** The other classes are left as they were. */
  lemma OtherClassesKept(ws: seq<Wagon>, i: nat, c: string)
    requires i < |ws| && c != ws[i].wtype.name
    ensures c in ClassNames(ws[..i + 1]) <==> c in ClassNames(ws[..i])
    ensures c in ClassNames(ws[..i]) ==> SeatTable(ws[..i + 1])[c] == SeatTable(ws[..i])[c]
  {
    ClassWagonsStep(ws, i, c);
    assert ws[..i + 1][..i] == ws[..i];
  }

  /** Two tables that agree away from `k`, where the second has an entry,
      differ by an update at `k`. */
  lemma UpdatedAt<V>(m: map<string, V>, m': map<string, V>, k: string)
    requires k in m'
    requires forall c :: c != k ==> (c in m' <==> c in m)
    requires forall c :: c != k && c in m ==> m'[c] == m[c]
    ensures m' == m[k := m'[k]]
  {
  }

  /** The entry the first pass starts from for the class of wagon `w`. */
  function EntryOrNew(m: map<string, ClassInfo>, w: Wagon): ClassInfo
  {
    if w.wtype.name in m then m[w.wtype.name] else ClassInfo(0, 0, 0, w.wtype.fareMultiplier)
  }

  /** The entry of the class of the `i`-th wagon after the first pass has
      seen it. */
  lemma SeatEntryStep(ws: seq<Wagon>, i: nat)
    requires i < |ws|
    ensures ws[i].wtype.name in SeatTable(ws[..i + 1])
    ensures var e := EntryOrNew(SeatTable(ws[..i]), ws[i]);
      SeatTable(ws[..i + 1])[ws[i].wtype.name] == e.(totalSeats := e.totalSeats + ws[i].seats)
  {
    var name := ws[i].wtype.name;
    ClassGrows(ws, i);
    assert name in SeatTable(ws[..i + 1]);
    if name in ClassNames(ws[..i]) {
      assert SeatTable(ws[..i])[name].totalSeats == ClassSeats(ws[..i], name);
    } else {
      ClassNamesMember(ws[..i], name);
      assert ClassSeats(ws[..i], name) == 0;
    }
  }

  /** One wagon of the first pass adds its seats to the entry of its class,
      creating the entry when it is the first wagon of the class. */
  lemma SeatTableStep(ws: seq<Wagon>, i: nat)
    requires i < |ws|
    ensures var e := EntryOrNew(SeatTable(ws[..i]), ws[i]);
      SeatTable(ws[..i + 1]) == SeatTable(ws[..i])[ws[i].wtype.name := e.(totalSeats := e.totalSeats + ws[i].seats)]
  {
    var name := ws[i].wtype.name;
    var m, m' := SeatTable(ws[..i]), SeatTable(ws[..i + 1]);
    SeatEntryStep(ws, i);
    forall c | c != name
      ensures c in m' <==> c in m
      ensures c in m ==> m'[c] == m[c]
    {
      OtherClassesKept(ws, i, c);
    }
    UpdatedAt(m, m', name);
  }

  /** A ticket of the trip, on the travel date, in a known class adds one
      booking to that class. */
  lemma BookingGrows(trip: Trip, ws: seq<Wagon>, ts: seq<Ticket>, date: int, j: nat, c: string)
    requires j < |ts|
    ensures BookedSeats(trip, ts[..j + 1], c, date)
      == BookedSeats(trip, ts[..j], c, date)
         + (if ts[j].trip.id == trip.id && DayOf(trip.departure) == date && ts[j].wagon.wtype.name == c then 1 else 0)
  {
    FilterSnoc(ts, j, (t: Ticket) => t.trip.id == trip.id && t.wagon.wtype.name == c);
  }

  /** Two tables with the same classes and the same entries are equal. */
  lemma SameTable<V>(m: map<string, V>, m': map<string, V>)
    requires forall c :: c in m' <==> c in m
    requires forall c :: c in m ==> m'[c] == m[c]
    ensures m' == m
  {
  }

  /** The entry of the class of the `j`-th ticket after the second pass has
      seen it. */
  lemma BookingEntryStep(trip: Trip, ws: seq<Wagon>, ts: seq<Ticket>, date: int, j: nat)
    requires j < |ts|
    requires ts[j].wagon.wtype.name in ClassNames(ws)
    ensures var m, t := BookingTable(trip, ws, ts[..j], date), ts[j];
      && t.wagon.wtype.name in m
      && BookingTable(trip, ws, ts[..j + 1], date)[t.wagon.wtype.name]
         == m[t.wagon.wtype.name].(bookedSeats := m[t.wagon.wtype.name].bookedSeats
                                                  + if t.trip.id == trip.id && DayOf(trip.departure) == date then 1 else 0)
  {
    BookingGrows(trip, ws, ts, date, j, ts[j].wagon.wtype.name);
  }

  /** The second pass: a ticket of the trip, on the travel date, in a known
      class adds one booking to that class; any other ticket changes nothing. */
  lemma BookingTableStep(trip: Trip, ws: seq<Wagon>, ts: seq<Ticket>, date: int, j: nat)
    requires j < |ts|
    ensures var m, t := BookingTable(trip, ws, ts[..j], date), ts[j];
      BookingTable(trip, ws, ts[..j + 1], date)
      == if t.trip.id == trip.id && DayOf(trip.departure) == date && t.wagon.wtype.name in m
         then m[t.wagon.wtype.name := m[t.wagon.wtype.name].(bookedSeats := m[t.wagon.wtype.name].bookedSeats + 1)]
         else m
  {
    var m, m' := BookingTable(trip, ws, ts[..j], date), BookingTable(trip, ws, ts[..j + 1], date);
    var name := ts[j].wagon.wtype.name;
    forall c | c != name
      ensures c in m' <==> c in m
      ensures c in m ==> m'[c] == m[c]
    {
      BookingGrows(trip, ws, ts, date, j, c);
    }
    if name in ClassNames(ws) {
      BookingEntryStep(trip, ws, ts, date, j);
      UpdatedAt(m, m', name);
    } else {
      SameTable(m, m');
    }
  }

  /** The second pass starts from the table of the first. */
  lemma BookingTableStart(trip: Trip, ws: seq<Wagon>, date: int)
    ensures BookingTable(trip, ws, [], date) == SeatTable(ws)
  {
    SameTable(SeatTable(ws), BookingTable(trip, ws, [], date));
  }

  /** The table `m` with the available count written for every class except
      those still `pending`. */
  function Completed(m: map<string, ClassInfo>, pending: set<string>): map<string, ClassInfo>
  {
    map c | c in m :: if c in pending then m[c] else m[c].(availableSeats := m[c].totalSeats - m[c].bookedSeats)
  }

  /** Writing the available count of one pending class. */
  lemma CompletedStep(m: map<string, ClassInfo>, pending: set<string>, c: string)
    requires c in pending && pending <= m.Keys
    ensures var t := Completed(m, pending);
      Completed(m, pending - {c}) == t[c := t[c].(availableSeats := t[c].totalSeats - t[c].bookedSeats)]
  {
    var t, t' := Completed(m, pending), Completed(m, pending - {c});
    UpdatedAt(t, t', c);
  }

  /** The third pass, once over, turns the table of the second pass into the
      availability table. */
  lemma CompletedBookingTable(trip: Trip, wagons: seq<Wagon>, ts: seq<Ticket>, date: int)
    ensures Completed(BookingTable(trip, TrainWagons(wagons, trip.train), ts, date), {})
      == ClassStats(trip, wagons, ts, date)
  {
    var b := BookingTable(trip, TrainWagons(wagons, trip.train), ts, date);
    var s, t := ClassStats(trip, wagons, ts, date), Completed(b, {});
    forall c
      ensures c in t <==> c in s
      ensures c in s ==> t[c] == s[c]
    {
    }
    SameTable(s, t);
  }

  /** The first pass of `get_available_seats_by_class`: create the entry of
      each class on its first wagon and add up the seats. */
  method TallySeats(ws: seq<Wagon>) returns (classes: map<string, ClassInfo>)
    ensures classes == SeatTable(ws)
  {
    classes := map[];
    var i := 0;
    while i < |ws|
      invariant 0 <= i <= |ws|
      invariant classes == SeatTable(ws[..i])
    {
      var w := ws[i];
      SeatTableStep(ws, i);
      var entry := if w.wtype.name in classes then classes[w.wtype.name] else ClassInfo(0, 0, 0, w.wtype.fareMultiplier);
      classes := classes[w.wtype.name := entry.(totalSeats := entry.totalSeats + w.seats)];
      i := i + 1;
    }
    assert ws[..|ws|] == ws;
  }

  /** The second pass: each ticket of the trip, when the trip departs on the
      travel date, adds a booking to the class of its wagon. */
  method CountBookings(trip: Trip, ws: seq<Wagon>, tickets: seq<Ticket>, date: int, seats: map<string, ClassInfo>)
    returns (classes: map<string, ClassInfo>)
    requires seats == SeatTable(ws)
    ensures classes == BookingTable(trip, ws, tickets, date)
  {
    BookingTableStart(trip, ws, date);
    assert tickets[..0] == [];
    classes := seats;
    var j := 0;
    while j < |tickets|
      invariant 0 <= j <= |tickets|
      invariant classes == BookingTable(trip, ws, tickets[..j], date)
    {
      var t := tickets[j];
      BookingTableStep(trip, ws, tickets, date, j);
      if t.trip.id == trip.id && DayOf(trip.departure) == date {
        var name := t.wagon.wtype.name;
        if name in classes {
          var info := classes[name];
          classes := classes[name := info.(bookedSeats := info.bookedSeats + 1)];
        }
      }
      j := j + 1;
    }
    assert tickets[..|tickets|] == tickets;
  }

  /** The third pass: every entry gets its available count. */
  method FillAvailable(booked: map<string, ClassInfo>) returns (classes: map<string, ClassInfo>)
    ensures classes == Completed(booked, {})
  {
    classes := booked;
    var pending := booked.Keys;
    SameTable(booked, Completed(booked, pending));
    while pending != {}
      invariant pending <= booked.Keys
      invariant classes == Completed(booked, pending)
      decreases |pending|
    {
      var c :| c in pending;
      CompletedStep(booked, pending, c);
      var info := classes[c];
      classes := classes[c := info.(availableSeats := info.totalSeats - info.bookedSeats)];
      pending := pending - {c};
    }
  }

  /** `Trip.get_available_seats_by_class`: one pass over the train's wagons to
      create the classes and add up their seats, one pass over the trip's
      tickets to count the bookings of the travel date, one pass over the
      table to write the available seats. */
  method AvailableSeatsByClass(trip: Trip, wagons: seq<Wagon>, tickets: seq<Ticket>, travelDate: Option<int>)
    returns (classes: map<string, ClassInfo>)
    ensures classes == ClassStats(trip, wagons, tickets, ResolveTravelDate(trip, travelDate))
  {
    var date := if travelDate.None? then DayOf(trip.departure) else travelDate.value;
    var ws := TrainWagons(wagons, trip.train);
    classes := TallySeats(ws);
    classes := CountBookings(trip, ws, tickets, date, classes);
    CompletedBookingTable(trip, wagons, tickets, date);
    classes := FillAvailable(classes);
  }

  /** `Trip.is_available_for_booking` over an availability table: a named
      class (a non-empty name) must exist and hold enough free seats; with no
      class named, any class with enough free seats will do. */
  predicate IsAvailableIn(stats: map<string, ClassInfo>, passengers: int, wagonClass: Option<string>)
  {
    if wagonClass.Some? && wagonClass.value != "" then
      wagonClass.value in stats && stats[wagonClass.value].availableSeats >= passengers
    else
      exists c :: c in stats && stats[c].availableSeats >= passengers
  }

  /** `Trip.is_available_for_booking(passengers_count, wagon_class, travel_date)`. */
  predicate IsAvailableForBooking(trip: Trip, wagons: seq<Wagon>, ts: seq<Ticket>,
                                  passengers: int, wagonClass: Option<string>, travelDate: Option<int>)
  {
    IsAvailableIn(ClassStats(trip, wagons, ts, ResolveTravelDate(trip, travelDate)), passengers, wagonClass)
  }

  /** `Trip.calculate_price(wagon_class, passengers_count)` in cents: zero when
      the train has no wagon of the class, otherwise base price times the
      first such wagon's multiplier times the passenger count, quantized to
      0.01 with ties to even. */
  function CalculatePrice(trip: Trip, wagons: seq<Wagon>, wagonClass: string, passengers: int): (cents: int)
    ensures ClassWagons(TrainWagons(wagons, trip.train), wagonClass) == [] ==> cents == 0
    ensures ClassWagons(TrainWagons(wagons, trip.train), wagonClass) != [] ==>
      var exact := trip.basePrice * ClassMultiplier(TrainWagons(wagons, trip.train), wagonClass) * passengers;
      2 * Abs(exact - cents * 100) <= 100 && (2 * Abs(exact - cents * 100) == 100 ==> cents % 2 == 0)
  {
    var ws := TrainWagons(wagons, trip.train);
    if ClassWagons(ws, wagonClass) == [] then 0
    else RoundHalfEven(trip.basePrice * ClassMultiplier(ws, wagonClass) * passengers, 100)
  }

  // ------------------------------------------------------------- properties

  /** The seats of some of the wagons never exceed the seats of all of them. */
  lemma {:induction false} FilterSeatsBounded(ws: seq<Wagon>, p: Wagon -> bool)
    ensures SumSeats(Filter(ws, p)) <= SumSeats(ws)
  {
    if ws != [] {
      var init, w := ws[..|ws| - 1], ws[|ws| - 1];
      FilterSeatsBounded(init, p);
      if p(w) {
        SumSeatsSnoc(Filter(init, p), w);
      } else {
        assert Filter(ws, p) == Filter(init, p);
      }
    }
  }

  /** The wagons of a train that belong to class `c` are the wagons of the
      table with that train and that type name. */
  lemma ClassWagonMember(wagons: seq<Wagon>, train: TrainId, c: string)
    ensures ClassWagons(TrainWagons(wagons, train), c) != []
      <==> exists k :: 0 <= k < |wagons| && wagons[k].train == train && wagons[k].wtype.name == c
  {
    var ws := TrainWagons(wagons, train);
    var cw := ClassWagons(ws, c);
    FilterMembers(wagons, (w: Wagon) => w.train == train);
    FilterMembers(ws, (w: Wagon) => w.wtype.name == c);
    if cw != [] {
      assert cw[0] in ws;
      var k :| 0 <= k < |wagons| && wagons[k] == cw[0];
    }
    if k :| 0 <= k < |wagons| && wagons[k].train == train && wagons[k].wtype.name == c {
      assert wagons[k] in ws;
      var m :| 0 <= m < |ws| && ws[m] == wagons[k];
      assert ws[m] in cw;
    }
  }

  /** The classes of the availability table are exactly the type names of the
      train's wagons. */
  lemma ClassStatsClasses(trip: Trip, wagons: seq<Wagon>, ts: seq<Ticket>, date: int, c: string)
    ensures c in ClassStats(trip, wagons, ts, date)
      <==> exists k :: 0 <= k < |wagons| && wagons[k].train == trip.train && wagons[k].wtype.name == c
  {
    ClassNamesMember(TrainWagons(wagons, trip.train), c);
    ClassWagonMember(wagons, trip.train, c);
  }

  /** One entry of the table: total seats of the class, at most the train's
      total; bookings counted only on the departure date; available is total
      minus booked; and the multiplier belongs to a wagon of that class on the
      train. */
  lemma ClassStatsEntry(trip: Trip, wagons: seq<Wagon>, ts: seq<Ticket>, date: int, c: string)
    requires c in ClassStats(trip, wagons, ts, date)
    ensures var e := ClassStats(trip, wagons, ts, date)[c];
      && e.totalSeats == ClassSeats(TrainWagons(wagons, trip.train), c) <= TotalSeats(trip, wagons)
      && e.bookedSeats == (if date == DayOf(trip.departure) then |ClassTickets(ts, trip.id, c)| else 0)
      && e.availableSeats == e.totalSeats - e.bookedSeats
      && (exists k :: 0 <= k < |wagons| && wagons[k].train == trip.train && wagons[k].wtype.name == c
                        && wagons[k].wtype.fareMultiplier == e.fareMultiplier)
  {
    var ws := TrainWagons(wagons, trip.train);
    FilterSeatsBounded(ws, (w: Wagon) => w.wtype.name == c);
    ClassNamesMember(ws, c);
    var cw := ClassWagons(ws, c);
    FilterMembers(wagons, (w: Wagon) => w.train == trip.train);
    FilterMembers(ws, (w: Wagon) => w.wtype.name == c);
    assert cw[0] in ws;
    var k :| 0 <= k < |wagons| && wagons[k] == cw[0];
  }

  /** A party that `is_available_for_booking` accepts fits in the train: the
      train has wagons and the party is no larger than `Trip.total_seats`. */
  lemma BookableWithinTotalSeats(trip: Trip, wagons: seq<Wagon>, ts: seq<Ticket>,
                                 n: int, wagonClass: Option<string>, travelDate: Option<int>)
    requires IsAvailableForBooking(trip, wagons, ts, n, wagonClass, travelDate)
    ensures TrainWagons(wagons, trip.train) != []
    ensures n <= TotalSeats(trip, wagons)
  {
    var date := ResolveTravelDate(trip, travelDate);
    var stats := ClassStats(trip, wagons, ts, date);
    var c: string;
    if wagonClass.Some? && wagonClass.value != "" {
      c := wagonClass.value;
    } else {
      c :| c in stats && stats[c].availableSeats >= n;
    }
    ClassStatsEntry(trip, wagons, ts, date, c);
    ClassNamesMember(TrainWagons(wagons, trip.train), c);
  }

  /** On any other date than the departure date nothing is booked and every
      seat of every class is free. */
  lemma OtherDateAllFree(trip: Trip, wagons: seq<Wagon>, ts: seq<Ticket>, date: int, c: string)
    requires date != DayOf(trip.departure)
    requires c in ClassStats(trip, wagons, ts, date)
    ensures ClassStats(trip, wagons, ts, date)[c].bookedSeats == 0
    ensures ClassStats(trip, wagons, ts, date)[c].availableSeats == ClassSeats(TrainWagons(wagons, trip.train), c)
  {
  }

  /** Enough seats for a party are enough for any smaller party. */
  lemma AvailabilityMonotone(trip: Trip, wagons: seq<Wagon>, ts: seq<Ticket>,
                             n: int, m: int, wagonClass: Option<string>, travelDate: Option<int>)
    requires m <= n
    requires IsAvailableForBooking(trip, wagons, ts, n, wagonClass, travelDate)
    ensures IsAvailableForBooking(trip, wagons, ts, m, wagonClass, travelDate)
  {
    var stats := ClassStats(trip, wagons, ts, ResolveTravelDate(trip, travelDate));
    if !(wagonClass.Some? && wagonClass.value != "") {
      var c :| c in stats && stats[c].availableSeats >= n;
      assert stats[c].availableSeats >= m;
    }
  }

  /** A named class is bookable exactly when the train has a wagon of that
      class and the class has enough free seats on the travel date. */
  lemma NamedClassAvailability(trip: Trip, wagons: seq<Wagon>, ts: seq<Ticket>,
                               n: int, c: string, travelDate: Option<int>)
    requires c != ""
    ensures var date := ResolveTravelDate(trip, travelDate);
      IsAvailableForBooking(trip, wagons, ts, n, Some(c), travelDate)
      <==> (exists k :: 0 <= k < |wagons| && wagons[k].train == trip.train && wagons[k].wtype.name == c)
           && ClassSeats(TrainWagons(wagons, trip.train), c) - BookedSeats(trip, ts, c, date) >= n
  {
    ClassStatsClasses(trip, wagons, ts, ResolveTravelDate(trip, travelDate), c);
  }

  /** With no class named, some wagon of the train must belong to a class with
      enough free seats; a train without wagons is never bookable. */
  lemma AnyClassAvailability(trip: Trip, wagons: seq<Wagon>, ts: seq<Ticket>,
                             n: int, wagonClass: Option<string>, travelDate: Option<int>)
    requires wagonClass.None? || wagonClass.value == ""
    ensures var date := ResolveTravelDate(trip, travelDate);
      IsAvailableForBooking(trip, wagons, ts, n, wagonClass, travelDate)
      <==> exists k :: 0 <= k < |wagons| && wagons[k].train == trip.train
             && ClassSeats(TrainWagons(wagons, trip.train), wagons[k].wtype.name)
                - BookedSeats(trip, ts, wagons[k].wtype.name, date) >= n
  {
    var date := ResolveTravelDate(trip, travelDate);
    var stats := ClassStats(trip, wagons, ts, date);
    var ws := TrainWagons(wagons, trip.train);
    if IsAvailableForBooking(trip, wagons, ts, n, wagonClass, travelDate) {
      var c :| c in stats && stats[c].availableSeats >= n;
      ClassStatsClasses(trip, wagons, ts, date, c);
      var k :| 0 <= k < |wagons| && wagons[k].train == trip.train && wagons[k].wtype.name == c;
    }
    if k :| (0 <= k < |wagons| && wagons[k].train == trip.train
             && ClassSeats(ws, wagons[k].wtype.name) - BookedSeats(trip, ts, wagons[k].wtype.name, date) >= n) {
      ClassStatsClasses(trip, wagons, ts, date, wagons[k].wtype.name);
      assert wagons[k].wtype.name in stats;
    }
  }

  /** `calculate_price` charges with the multiplier the availability table
      reports for the class. */
  lemma PriceUsesTableMultiplier(trip: Trip, wagons: seq<Wagon>, ts: seq<Ticket>, date: int, c: string, n: int)
    requires c in ClassStats(trip, wagons, ts, date)
    ensures CalculatePrice(trip, wagons, c, n)
      == RoundHalfEven(trip.basePrice * ClassStats(trip, wagons, ts, date)[c].fareMultiplier * n, 100)
  {
    ClassNamesMember(TrainWagons(wagons, trip.train), c);
  }

  /** A price that is a whole number of cents is charged exactly. */
  lemma PriceExactInCents(trip: Trip, wagons: seq<Wagon>, c: string, n: int)
    requires ClassWagons(TrainWagons(wagons, trip.train), c) != []
    requires (trip.basePrice * ClassMultiplier(TrainWagons(wagons, trip.train), c) * n) % 100 == 0
    ensures CalculatePrice(trip, wagons, c, n) * 100 == trip.basePrice * ClassMultiplier(TrainWagons(wagons, trip.train), c) * n
  {
    var exact := trip.basePrice * ClassMultiplier(TrainWagons(wagons, trip.train), c) * n;
    RoundHalfEvenExact(exact, 100, exact / 100);
  }

  /** The train and class queries over a two-wagon table. */
  lemma TwoWagons(a: Wagon, b: Wagon, train: TrainId, c: string)
    ensures TrainWagons([a, b], train) == (if a.train == train then [a] else []) + (if b.train == train then [b] else [])
    ensures ClassWagons([a, b], c) == (if a.wtype.name == c then [a] else []) + (if b.wtype.name == c then [b] else [])
  {
    FilterPair(a, b, (w: Wagon) => w.train == train);
    FilterPair(a, b, (w: Wagon) => w.wtype.name == c);
  }

  /** The fare scenario of the model tests: a 100.00 trip on a train with a
      20-seat Lux wagon (x2.00) and a 40-seat Economy wagon (x1.00) costs
      400.00 in Lux and 200.00 in Economy for two passengers, and 0.00 in a
      class the train does not have. */
  lemma PriceScenario(trip: Trip, lux: Wagon, economy: Wagon)
    requires trip.basePrice == 10000
    requires lux.train == trip.train && lux.wtype.name == "Lux" && lux.wtype.fareMultiplier == 200
    requires economy.train == trip.train && economy.wtype.name == "Economy" && economy.wtype.fareMultiplier == 100
    ensures CalculatePrice(trip, [lux, economy], "Lux", 2) == 40000
    ensures CalculatePrice(trip, [lux, economy], "Economy", 2) == 20000
    ensures CalculatePrice(trip, [lux, economy], "Invalid", 2) == 0
  {
    TwoWagons(lux, economy, trip.train, "Lux");
    TwoWagons(lux, economy, trip.train, "Economy");
    TwoWagons(lux, economy, trip.train, "Invalid");
    var ws := TrainWagons([lux, economy], trip.train);
    assert ws == [lux, economy];
    assert ClassWagons(ws, "Lux") == [lux];
    assert ClassMultiplier(ws, "Lux") == 200;
    assert ClassWagons(ws, "Invalid") == [];
    RoundHalfEvenExact(10000 * 200 * 2, 100, 40000);
    RoundHalfEvenExact(10000 * 100 * 2, 100, 20000);
  }
}
