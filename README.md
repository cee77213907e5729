# Railway booking core, modelled in Dafny

This project models the booking core of a Django railway-ticket service.

**Scheduling** (station/models.py, station/serializers.py)
- Routes join two stations.
- Trips are runs of a train over a route.
- A train never runs two trips that overlap in time.

**Inventory** (station/models.py)
- Seat counts per wagon and per trip.
- The per-class availability table of a trip.
- The booking-availability test built on that table.
- `calculate_price`.

**Tickets** (booking/models.py, booking/serializers.py)
- `Ticket.clean` and `Ticket.save` with `compute_price`.
- The request checks of `TicketSerializer` and `OrderCreateSerializer`.

**Orders** (booking/services/order_service.py, booking/serializers.py)
- Creating an order with its tickets inside one transaction.
- The order listings.
- Cancelling an order.
- `Order.total_price`.

**Views** (station/serializers.py, station/views.py)
- Station autocomplete.
- Trip search.
- The five-run availability list of a trip.

## Modules

| file | module | what it holds |
|---|---|---|
| common.dfy | `Common` | `Option`, `Result`, `Filter`/`Take` (queryset filters and slices), case-insensitive substring search |
| money.dfy | `Money` | fixed-point amounts, `Decimal` values, round-half-even quantization |
| entities.dfy | `Entities` | the records, as datatypes |
| schedule.dfy | `Schedule` | `Route.clean`, `Trip.clean`, `TripSerializer.validate`, trip duration |
| inventory.dfy | `Inventory` | seat counts, `get_available_seats_by_class` (three loops), `is_available_for_booking`, `calculate_price` |
| seatlock.dfy | `SeatLock` | why a stored trip's seat counts are never negative |
| fares.dfy | `Fares` | `compute_price` and the fare the order loop computes from the passenger type's code |
| tickets.dfy | `Tickets` | `Ticket.clean`, `Ticket.save`, the serializer checks |
| orders.dfy | `Orders` | the booking store: a class whose methods create and cancel orders |
| availability.dfy | `TripAvailability` | `get_dates_availability` |
| views.dfy | `Views` | autocomplete, search, and the parameter handling of the availability endpoint |

### Representation

**Amounts**
- All amounts are integers counting a fixed fraction of the currency unit.
- A base price is in cents; a fare multiplier is in hundredths. Their product, which Python's `Decimal` keeps exactly, is in units of 10^-4.
- Ticket prices are in millionths. At that scale the per-cent discount and the child half fare are exact.
- `calculate_price` quantizes to cents with `Decimal`'s default rounding (half to even).

**Time**
- Times are whole seconds.
- A calendar date is the day number `DayOf(t)`.

**Records and the database**
- Records embed the rows they refer to.
- Instance comparisons in the source compare primary keys.
- The database tables are sequences in primary-key order.
- The booking store is a class whose methods update those sequences and the two id counters. Its methods are:
  - `CreateOrder`, the loop inside `transaction.atomic`. It restores every field on failure.
  - `SubmitOrder`.
  - `CancelOrder`.

### Where the source disagrees with itself
- `Ticket.compute_price` reads `self.wagon.wagon_type` (booking/models.py:169). The wagon's field is named `type` (station/models.py:140).
  - As written every `Ticket.save` raises, so every order with at least one ticket is rolled back (`Orders.BookingStore.CreateOrderAsWritten`, under "## Findings").
  - The rest of the model reads `type`, which is what the rest of the source uses.
- `Trip.available_seats_total` (station/models.py:273) uses an attribute that does not exist (`sold_tickets_count`).
- `Ticket.save` overwrites whatever price the caller supplies (booking/models.py:162).
  - So the code-based fare that both creation loops compute never reaches the database.
  - `Tickets.SaveIgnoresSuppliedPrice` and `Orders.BookingStore.CreateOrder` state this.
- The availability view parses and validates `date` (station/views.py:242-251), but the serializer never reads it.
- `Wagon.available_seats()` without a trip counts the tickets of every trip of the wagon. It goes negative as soon as the wagon's seats are sold on two trips (`SeatLock.WagonAvailableWithoutTripCanBeNegative`).

## Model

| member | source | states |
|---|---|---|
| Schedule.RouteClean | station/models.py:55-61 | a route is refused exactly when both ends are the same station |
| Schedule.Blocks | station/models.py:225-234 | the overlap query: same train, departing before the trip arrives, arriving after it departs, other than the trip's own id (characterised by `Schedule.TripClean`, `Schedule.BlocksSymmetric`, `Schedule.UpdateDoesNotBlockItself`) |
| Schedule.BlocksSymmetric | station/models.py:228-231 | the overlap condition is symmetric: of two unsaved trips each blocks the other or neither does |
| Schedule.TripClean | station/models.py:217-241 | refused for arrival not after departure; otherwise refused exactly when a stored trip of the same train, other than the trip itself, overlaps its interval; accepted trips are unchanged |
| Schedule.ValidateTripAttrs | station/serializers.py:133-138 | the serializer refuses exactly the trips whose arrival is not after departure |
| Schedule.DurationInMinutes | station/models.py:252-258 | the duration is the floor of the seconds between departure and arrival divided by 60 |
| Schedule.CleanTripKeepsScheduleDisjoint | station/models.py:224-236 | storing a trip that `clean` accepts keeps every train's trips pairwise non-overlapping |
| Schedule.UpdateDoesNotBlockItself | station/models.py:232-234 | re-validating a stored trip under its own id succeeds: it does not collide with itself |
| Schedule.BackToBackAccepted | station/models.py:230-231 | a trip departing exactly when another arrives is accepted (strict comparisons) |
| Schedule.OverlapScenario | station/test_models.py:109-118 | a 13:00-17:00 trip is refused next to a 10:00-14:00 trip of the same train, accepted on another train |
| Inventory.SoldSeats | station/models.py:162-168 | the wagon's sold count is at most the number of tickets |
| Inventory.WagonAvailableSeats | station/models.py:170-176 | the wagon's seats minus its sold tickets (that this is the number of its free seats: `SeatLock.WagonAvailableCountsFreeSeats`) |
| Inventory.SoldTickets | station/models.py:243-245 | the trip's sold count is at most the number of tickets |
| Inventory.TripAvailableSeats | station/models.py:247-250 | the train's seats minus the trip's sold tickets (that this is the number of its free seats: `SeatLock.TripAvailableCountsFreeSeats`) |
| Inventory.TotalSeats | station/models.py:260-265 | the seat sum of the train's wagons (bounds: `Inventory.WagonWithinTotalSeats`; the number of seat slots with distinct wagon ids: `SeatLock.SlotsExactSize`) |
| Inventory.MemberSeatsWithinSum | station/models.py:265 | a wagon's seats are at most the seat sum of any list holding it |
| Inventory.WagonWithinTotalSeats | station/models.py:260-265 | every wagon of the train has at most the trip's total seats |
| Inventory.TallySeats | station/models.py:284-293 | the wagon loop builds, per class, the seat total and the first wagon's multiplier |
| Inventory.CountBookings | station/models.py:295-302 | the ticket loop adds one booking per ticket of the trip on the travel date, for known classes only |
| Inventory.FillAvailable | station/models.py:304-307 | the last loop writes total minus booked into every entry |
| Inventory.ClassStats | station/models.py:275-309 | the availability table defined class by class (the loops compute it: `Inventory.AvailableSeatsByClass`; its keys and entries: `Inventory.ClassStatsClasses`, `Inventory.ClassStatsEntry`) |
| Inventory.AvailableSeatsByClass | station/models.py:275-309 | the method's table equals the class-by-class definition, with the travel date defaulting to the departure date |
| Inventory.ClassStatsClasses | station/models.py:284-292 | the table's classes are exactly the type names of the train's wagons |
| Inventory.ClassStatsEntry | station/models.py:293-307 | each entry: class seat total (at most the train's total), bookings only on the departure date, available = total - booked, multiplier of a wagon of that class |
| Inventory.OtherDateAllFree | station/models.py:295-297 | on a date other than the departure date nothing is booked and every seat is free |
| Inventory.IsAvailableIn | station/models.py:320-331 | the test over a table: a named class must exist with enough free seats, otherwise any class will do (characterised by `Inventory.NamedClassAvailability`, `Inventory.AnyClassAvailability`) |
| Inventory.IsAvailableForBooking | station/models.py:311-331 | `is_available_for_booking` over the trip's table for the resolved travel date (characterised by `Inventory.NamedClassAvailability`, `Inventory.AnyClassAvailability`, `Inventory.AvailabilityMonotone`, `Inventory.BookableWithinTotalSeats`) |
| Inventory.BookableWithinTotalSeats | station/models.py:311-331 | a bookable party means the train has wagons and the party is at most the trip's total seats |
| Inventory.NamedClassAvailability | station/models.py:320-326 | a named class is bookable iff the train has a wagon of the class and its free seats reach the count |
| Inventory.AnyClassAvailability | station/models.py:327-331 | with no class named, bookable iff some wagon's class has enough free seats; a train without wagons never is |
| Inventory.AvailabilityMonotone | station/models.py:311-331 | enough seats for a party are enough for any smaller party |
| Inventory.CalculatePrice | station/models.py:333-348 | zero cents without a wagon of the class; otherwise the nearest cent to base x multiplier x count, even on a tie |
| Inventory.PriceUsesTableMultiplier | station/models.py:342-347 | the price uses the same multiplier the availability table reports for the class |
| Inventory.PriceExactInCents | station/models.py:347-348 | an amount already in whole cents is charged exactly |
| Inventory.PriceScenario | station/test_models.py:195-214 | 100.00 base: Lux x2.00 for two is 400.00, Economy x1.00 for two is 200.00, an unknown class 0.00 |
| Money.RoundHalfEven | station/models.py:348 | `quantize(Decimal("0.01"))`: the result is a nearest multiple, even on a tie |
| Money.RoundHalfEvenUnique | station/models.py:348 | the nearest-even property determines the rounded value uniquely |
| Money.RoundHalfEvenExact | station/models.py:348 | an exact quotient is unchanged by rounding |
| SeatLock.TicketsWithinSeats | booking/models.py:120 | tickets with pairwise distinct seat keys, all on seats of given wagons, are at most those wagons' seats |
| SeatLock.WagonAvailableNonNegative | station/models.py:170-176 | with unique seat keys and admissible tickets, a wagon's available seats for a trip are never negative |
| SeatLock.TripAvailableNonNegative | station/models.py:247-250 | under the same invariant a stored trip's available seats are never negative |
| SeatLock.ClassAvailableNonNegative | station/models.py:304-307 | under the same invariant no class of the table is overbooked |
| SeatLock.DiffSize | station/models.py:174-175 | removing a subset removes exactly its size |
| SeatLock.WagonSoldInRange | station/models.py:162-168 | under the invariant every ticket the wagon's sold count sees for a trip holds a seat 1..seats of that wagon on that trip |
| SeatLock.WagonHeldAreSold | station/models.py:162-168 | the wagon's seats held by some ticket of the store are exactly those held by the tickets counted as sold |
| SeatLock.WagonAvailableCountsFreeSeats | station/models.py:170-176 | under the invariant a wagon's available seats for a trip are exactly the number of its seats 1..seats no ticket holds on that trip |
| SeatLock.FilterKeepsWagonIdsDistinct | station/models.py:248 | the train's wagons, filtered from the table, keep distinct ids |
| SeatLock.SlotsMemberIff | station/models.py:248-250 | a seat key is a slot of the trip iff it names the trip, one of the wagons and a seat 1..seats of it |
| SeatLock.SlotsExactSize | station/models.py:248-250 | with distinct wagon ids the slots number exactly the wagons' total seats |
| SeatLock.TripSoldInSlots | station/models.py:243-245 | under the invariant every ticket of a stored trip holds a slot of the train's wagons |
| SeatLock.TripHeldAreSold | station/models.py:243-245 | the trip's slots held by some ticket are exactly those held by the trip's own tickets |
| SeatLock.TripAvailableCountsFreeSeats | station/models.py:247-250 | under the invariant and with distinct wagon ids a stored trip's available seats are exactly the number of its slots no ticket holds |
| SeatLock.WagonAvailableWithoutTripCanBeNegative | station/models.py:166-176 | without a trip the count mixes trips: a consistent store can report -1 |
| Fares.ComputePrice | booking/models.py:165-174 | no discount gives the full fare; otherwise price x 100 = full fare x (100 - discount) |
| Fares.ComputePriceAsWritten | booking/models.py:169-174 | the discount read as `Decimal("0.<d>")` = d/10^digits(d); no discount gives the base amount |
| Fares.AsWrittenAgreesIff | booking/models.py:170-172 | for a non-zero base, the as-written price equals the per-cent price iff the discount is 0 or has exactly two digits |
| Fares.DiscountFiveAsWritten | booking/models.py:171 | a 5 % discount as written halves the fare; per cent it keeps 95 % |
| Fares.DiscountHundredAsWritten | booking/models.py:171 | a 100 % discount as written takes off 10 %; per cent the ticket is free |
| Fares.DiscountFiftyAgrees | booking/models.py:171-172 | a 50 % discount gives half the full fare in both readings |
| Fares.DiscountMonotone | booking/models.py:170-172 | a larger discount never gives a higher price |
| Fares.CodeFare | booking/serializers.py:150-161 | infant free, child exactly half, anyone else or no passenger type the full fare |
| Fares.CodeFareAsWritten | booking/services/order_service.py:30-40 | no fare exactly for a child (`Decimal * 0.5` raises); otherwise the same value as the corrected fare |
| Fares.CodeFareMatchesDiscountIff | booking/serializers.py:153-161 | the code-based fare equals `compute_price` iff the type's discount matches its code (child 50, infant 100, others 0) |
| Tickets.HeldByOther | booking/models.py:148-153 | the `filter(...).exclude(id=...).exists()` seat query (characterised by `Tickets.HeldByOtherKeys`, `Tickets.TicketClean`, `Tickets.StoredTicketCleansItself`) |
| Tickets.HeldByOtherKeys | booking/models.py:148-153 | for an unsaved ticket the query finds exactly the stored seat keys; excluding a primary key only removes rows |
| Tickets.TicketClean | booking/models.py:128-155 | each error iff its condition in source order (wagon not on the train, seat outside 1..seats, seat held by another row); success iff admissible and free |
| Tickets.CleanKeepsSeatLock | booking/models.py:147-155 | storing a ticket `clean` accepts keeps seat keys unique and every ticket admissible |
| Tickets.StoredTicketCleansItself | booking/models.py:152 | a stored admissible ticket re-cleaned under its own id passes |
| Tickets.PrepareForSave | booking/models.py:157-163 | the saved price is `compute_price`; nothing else changes |
| Tickets.SaveIgnoresSuppliedPrice | booking/models.py:162 | the saved row does not depend on the supplied price |
| Tickets.BadFields | booking/serializers.py:21-44 | a field is in error iff absent, or for the seat outside 0..32767 |
| Tickets.ValidateTicket | booking/serializers.py:46-81 | field errors (all together), then seat taken, then seat 0 "all fields required", wrong train, invalid seat, each iff its condition; a missing document only when one is required and absent; success iff none of them |
| Tickets.ValidatedTicketIsClean | booking/serializers.py:54-81 | a request the serializer accepts becomes a ticket `Ticket.clean` accepts |
| Tickets.ItemOutcomes | booking/serializers.py:114 | one outcome per item: none iff the item validates, else its error |
| Tickets.ValidateTickets | booking/serializers.py:114-130 | absent list refused; item errors reported before the empty-list check; success iff non-empty and every item validates |
| Orders.InsertCheck | booking/services/order_service.py:24-42 | the row goes in iff all its fields are present and its seat triple is not stored; a missing key is reported iff the trip or wagon is absent, a duplicate seat iff the fields are present and the triple is stored |
| Orders.Issue | booking/services/order_service.py:24-42 | one row per request (the contents of each row: `Orders.IssueAt`) |
| Orders.IssueAt | booking/services/order_service.py:42 | the i-th row has id first + i, the order, the request's seat, trip, wagon and the `compute_price` fare |
| Orders.KeyTakenIssue | booking/models.py:120 | after the loop a seat is taken iff it was before or a request asked for it |
| Orders.TotalPrice | booking/models.py:44-46 | the sum of the order's ticket prices (characterised by `Orders.TotalPriceAppend`, `Orders.TotalPriceWithoutTickets`, `Orders.TotalPriceNonNegative`, `Orders.IssueTotal`) |
| Orders.TotalPriceAppend | booking/models.py:43-46 | the total over two row lists is the sum of the totals |
| Orders.TotalPriceWithoutTickets | booking/models.py:44-46 | an order with no stored ticket totals 0 |
| Orders.TotalPriceNonNegative | booking/models.py:44-46 | an order whose ticket prices are non-negative totals a non-negative amount |
| Orders.IssueTotal | booking/models.py:43-46 | the rows of one request list total its `compute_price` fares |
| Orders.NewOrderTotal | booking/models.py:43-46 | a fresh order totals the `compute_price` fares of its requests |
| Orders.OrdersForUser | booking/services/order_service.py:46-52 | never more orders than are stored (which ones and in what order: `Orders.OrdersForUserMembers`, `Orders.NewestFirst`) |
| Orders.OrdersForUserMembers | booking/services/order_service.py:50 | an order is listed iff it is stored and belongs to the user |
| Orders.AllOrders | booking/services/order_service.py:54-60 | as many rows as are stored (which ones and in what order: `Orders.AllOrdersMembers`, `Orders.NewestFirst`) |
| Orders.AllOrdersMembers | booking/services/order_service.py:58 | the listing holds every stored order once per row |
| Orders.NewestFirst | booking/models.py:38 | with ids in creation order, both listings have decreasing ids |
| Orders.DepartsWithinDay | booking/services/order_service.py:72-78 | some ticket of the order departs at most 24 hours after now (characterised by `Orders.CancelCheck`, `Orders.BookingStore.AnyDepartsWithinDay`, `Orders.DepartsWithinDayLater`) |
| Orders.DepartsWithinDayLater | booking/services/order_service.py:72-78 | the window only closes: too late at one time means too late at every later time |
| Orders.CancelCheck | booking/services/order_service.py:66-78 | forbidden for someone else's order, then not pending, then a ticket departing within 24 hours; each iff its condition, accepted otherwise |
| Orders.EmptyOrderCancellable | booking/services/order_service.py:72-80 | an owned pending order without tickets can always be cancelled |
| Orders.FindOrder | booking/services/order_service.py:64 | the first index holding the id, or none iff no order has it |
| Orders.SameSeatTwice | booking/serializers.py:46-52 | a list asking twice for a free seat passes validation but cannot be written |
| Orders.ValidatedInsertableIff | booking/serializers.py:145-164 | a validated request list can be written iff no seat repeats in it |
| Orders.IssueAdmissible | booking/serializers.py:62-66 | validated requests become admissible tickets |
| Orders.BookingStore.constructor | booking/models.py:117-120 | an empty store over the given trips and wagons is valid |
| Orders.BookingStore.CreateOrder | booking/services/order_service.py:15-44 | success iff every row can be written; then a new pending order, its rows appended, its total = sum of `compute_price`; on failure the first failing row's error and the whole state restored |
| Orders.BookingStore.OpenOrder | booking/services/order_service.py:21 | a pending order under the next id is appended, invariant kept |
| Orders.BookingStore.InsertRows | booking/services/order_service.py:24-42 | writes the rows in order; stops at the first refused one with its error |
| Orders.BookingStore.InsertOne | booking/serializers.py:145-164 | one turn of the loop: code-based fare, then the row unless refused |
| Orders.BookingStore.AppendRow | booking/models.py:120 | a row on a free seat keeps the store invariant |
| Orders.RowFaultAsWritten | booking/models.py:165-169 | as written every request fails: a missing key iff the trip or wagon is absent, the `Decimal * float` iff the code fare fails, otherwise the missing `wagon_type` attribute |
| Orders.SingleRequestInsertable | booking/services/order_service.py:24-42 | with `type` read as intended, one complete request for a free seat can be written and meets no missing key |
| Orders.BookingStore.CreateOrderAsWritten | booking/models.py:169 | as written an order is created iff the request list is empty; otherwise the first request's fault, with orders, tickets and counters as before |
| Orders.BookingStore.SubmitOrder | booking/serializers.py:109-166 | validation failure changes nothing; success iff validation passes and no seat repeats; admissibility of all stored tickets is kept |
| Orders.BookingStore.LocateOrder | booking/services/order_service.py:64 | the scan finds the first order with the id |
| Orders.BookingStore.AnyDepartsWithinDay | booking/services/order_service.py:72-78 | the ticket loop reports whether some ticket of the order departs within 24 hours |
| Orders.BookingStore.CancelOrder | booking/services/order_service.py:62-82 | not found, forbidden, not pending, too late as `CancelCheck`; otherwise only that order's status becomes cancelled; tickets never change |
| Orders.BookingStore.CancelTwice | booking/services/order_service.py:69-70 | after a successful cancel the same cancel is refused as not pending; after a failed one it fails the same way |
| TripAvailability.InsertByDeparture | station/serializers.py:292 | insertion keeps the runs as a multiset |
| TripAvailability.SortByDeparture | station/serializers.py:292 | `order_by("departure_time")` is a permutation |
| TripAvailability.SortIsSorted | station/serializers.py:292 | and its result is in departure order |
| TripAvailability.Candidates | station/serializers.py:288-292 | at most five runs (which runs: `TripAvailability.CandidatesProperties`, `TripAvailability.CandidatesFirstFive`, `TripAvailability.CandidatesListTrip`) |
| TripAvailability.CandidatesProperties | station/serializers.py:288-292 | every candidate is a stored run of the same route and train leaving no earlier; sorted; non-empty when the trip is stored |
| TripAvailability.CandidatesFirstFive | station/serializers.py:288-292 | `[:5]` of the departure-ordered runs keeps the earliest: a stored later run left out means five are listed, none leaving after it |
| TripAvailability.CandidatesListTrip | station/serializers.py:281-292 | with no overlapping runs of one train and every run taking time, the trip itself is listed |
| TripAvailability.PriceClasses | station/serializers.py:305-313 | every class gets price = base x multiplier x count and has-enough iff available >= count |
| TripAvailability.BuildEntry | station/serializers.py:295-323 | one run's entry with its own departure date as travel date |
| TripAvailability.EntryFor | station/serializers.py:295-313 | one run's entry: its class table for its own date, priced (characterised by `TripAvailability.EntryMeaning`; computed by `TripAvailability.BuildEntry`) |
| TripAvailability.DatesAvailability | station/serializers.py:279-325 | one entry per candidate run, in order |
| TripAvailability.EntryMeaning | station/serializers.py:296-313 | available iff some wagon's class has enough free seats; per class has-enough iff free >= count, price formula, booked = the run's tickets of the class |
| Views.PassengersCount | station/views.py:173-186 | the parsed count, or 1 when absent or not an integer |
| Views.RequestDate | station/views.py:188-197 | an unparsable date is an error; an absent one takes the default |
| Common.ContainsIgnoreCase | station/views.py:67 | the `icontains` lookup with ASCII case folding (characterised by `Common.ContainsIgnoreCaseBounds`) |
| Common.ContainsIgnoreCaseBounds | station/views.py:67 | the empty query matches every text, a query longer than the text matches none, and a query occurring as written matches |
| Views.NameLeqTotal | station/models.py:18 | any two names are ordered one way or the other |
| Views.NameLeqTrans | station/models.py:18 | the name order is transitive |
| Views.InsertByName | station/models.py:18 | insertion keeps the stations as a multiset |
| Views.InsertByNameKeepsLowerBound | station/models.py:18 | a name at most every name of the list and the inserted one stays at most every name |
| Views.InsertByNameKeepsSorted | station/models.py:18 | inserting into a list sorted by name keeps it sorted |
| Views.SortByName | station/models.py:18 | `ordering = ["name"]` is a permutation of the stations |
| Views.SortByNameIsSorted | station/models.py:18 | and its result is in name order |
| Views.Autocomplete | station/views.py:58-69 | at most ten stations; nothing for a query shorter than two characters (which ten and their order: `Views.AutocompleteMembers`, `Views.AutocompleteSorted`, `Views.AutocompleteFirstTen`) |
| Views.NameMatchesMembers | station/views.py:67 | a station is among the name-ordered matches iff it is stored and its name contains the query ignoring case |
| Views.AutocompleteMembers | station/views.py:67 | every listed station matches the query ignoring case; with fewer than ten listed, every match is listed |
| Views.AutocompleteSorted | station/views.py:67 | the listed stations are in name order (`ordering = ["name"]`, station/models.py:18) |
| Views.AutocompleteFirstTen | station/views.py:67 | a matching station left out means ten are listed, each with a name at most the omitted one: the first ten by name |
| Views.Search | station/views.py:166-223 | missing or empty origin or destination, then a bad date, are errors; succeeds iff both ends are non-empty and the date parses; otherwise the filtered trips |
| Views.MatchingTripsMembers | station/views.py:200-206 | a trip is in the query iff it is stored and matches both ends by name or city and the date |
| Views.SearchResultSound | station/views.py:200-220 | every returned trip matches and, for a positive count, is bookable |
| Views.SearchResultComplete | station/views.py:200-220 | every stored matching (and, for a positive count, bookable) trip is returned |
| Views.SearchResultSorted | station/models.py:208 | the results are in departure order |
| Views.Availability | station/views.py:225-260 | a bad date is an error; otherwise the five-run list for the parsed passenger count |
| Views.AvailabilityDefaults | station/views.py:233-251 | without parameters the count is 1 and the date is the trip's departure date |

## Left out
- I/O, HTTP responses, serializer output formats, authentication and permissions of the viewsets: only the values they compute are modelled.
- The clock is a parameter (`now`, `today`). `strptime` and `int()` parsing are left out: the views receive already-classified parameters.
- Time zones: a date is the UTC day of a timestamp.
- Inventory.PriceUsesTableMultiplier: unordered querysets are read in primary-key order. The wagon loop of `get_available_seats_by_class` (station/models.py:284) has no `ordering` (`Wagon.Meta`, station/models.py:154-157), while `calculate_price` takes `first()` by primary key (station/models.py:346). `WagonType.name` is not unique (station/models.py:99). So in the source the table and the price can take different multipliers for one class name; the model cannot.
- Orders.InsertCheck and Tickets.BadFields: the seat bound 32767 is PostgreSQL's `smallint` range, which the serializer field takes from the model field; SQLite would store a larger seat number.
- Common.ContainsIgnoreCase: folds ASCII letters only, as SQLite's LIKE does under the development settings; PostgreSQL (config/settings/prod.py:12) also folds non-ASCII letters, which is not modelled.
- Views.SortByName: names are ordered by code point, not by the database collation; stations with equal names keep no particular order.
- SeatLock.TripAvailableCountsFreeSeats: needs distinct wagon ids (`WagonIdsDistinct`), which primary keys give but the table sequence does not enforce by itself.
- The `DecimalField(max_digits=8, decimal_places=2)` rounding the database applies to stored prices is not modelled; ticket prices are kept exact.
- Fares.ComputePrice: models the multiplier as `wagon.type`, not the `wagon_type` attribute the source reads, which does not exist; the as-written failure is `Orders.BookingStore.CreateOrderAsWritten` (see "## Findings").
- TripAvailability.PriceClasses: `float(...)` of the price is not modelled; the exact amount is kept.
- `Trip.available_seats_total` is not modelled: it reads an attribute that does not exist.
- `get_wagon_types` and the other read-only serializer fields are not modelled: they only format data.
- Concurrency: two transactions racing for one seat are not modelled; the unique constraint is checked against the current store.
- Orders.BookingStore.CreateOrder: a failed transaction also restores the two id counters, which a real database sequence need not do.
- Orders.OrdersForUser: `created_at` order is modelled as store order; ties between equal timestamps are not.
- Views.Search and TripAvailability.SortByDeparture: runs with equal departure times keep table order; `ordering = ["departure_time"]` and `order_by("departure_time")` leave that order to the database.
- `prefetch_related` and `select_related` only change query counts and are left out.
- Primary-key lookups of related rows (`does_not_exist`, `incorrect_type` errors of the related fields) happen before the model's request data; a request names rows that exist (`RowsStored`).
- Orders.BookingStore.SubmitOrder: only the core checks of `TicketSerializer` are modelled; `passenger_name` length limits are not.

## Findings

| source | as written | input that shows it | evidently intended | confidence | as-written member | corrected member |
|---|---|---|---|---|---|---|
| booking/models.py:171 | the discount is `Decimal("0." + str(d))`, i.e. d / 10^digits(d) | `discount_percent` = 5 gives x0.5; 100 gives x0.9 (free infant pays 90 %) | d / 100, i.e. d per cent off | high, not executed | Fares.ComputePriceAsWritten (with Fares.DiscountFiveAsWritten, Fares.DiscountHundredAsWritten, Fares.AsWrittenAgreesIff) | Fares.ComputePrice |
| booking/serializers.py:155, booking/services/order_service.py:34 | `base_price * 0.5` multiplies a `Decimal` by a `float` | any request whose passenger type has code "child" raises TypeError and aborts the order | an exact half fare | high, not executed | Fares.CodeFareAsWritten | Fares.CodeFare (with Fares.CodeFareMatchesDiscountIff) |
| booking/models.py:169 | `compute_price` reads `self.wagon.wagon_type`; the wagon's field is `type` (station/models.py:140) | any request list with one ticket whose trip and wagon exist: `Ticket.save` raises AttributeError, the transaction rolls back, no order is created | `self.wagon.type.fare_multiplier` | high, not executed | Orders.BookingStore.CreateOrderAsWritten (with Orders.RowFaultAsWritten) | Orders.BookingStore.CreateOrder (with Orders.SingleRequestInsertable, Fares.ComputePrice) |
