/** The records of the booking database, as values.

    A foreign key is modelled by embedding the referenced record (a Ticket
    holds its Trip, Wagon and PassengerType), and the source's comparisons of
    model instances (`wagon.train != trip.train`, `order.user != user`) compare
    primary keys. Times are whole seconds; a calendar date is a day number. */
module Entities {

  type StationId = nat
  type RouteId = nat
  type TrainId = nat
  type WagonTypeId = nat
  type WagonId = nat
  type TripId = nat
  type UserId = nat
  type OrderId = nat
  type TicketId = nat
  type PassengerTypeId = nat

  /** Seconds per calendar day; `DayOf` plays `departure_time.date()` in UTC. */
  const SecondsPerDay: nat := 86400

  function DayOf(t: int): int
  {
    t / SecondsPerDay
  }

  datatype Station = Station(id: StationId, name: string, city: string, address: string)

  datatype Route = Route(id: RouteId, origin: Station, destination: Station, distanceKm: nat)

  datatype TrainKind = Passenger | Express | Suburban

  datatype Train = Train(id: TrainId, name: string, number: string, kind: TrainKind)

  /** A wagon class; `fareMultiplier` is in hundredths (2.00 is 200). */
  datatype WagonType = WagonType(id: WagonTypeId, name: string, fareMultiplier: int)

  datatype Wagon = Wagon(id: WagonId, train: TrainId, number: nat, wtype: WagonType, seats: nat)

  /** One run of a train over a route; `basePrice` is in cents. */
  datatype Trip = Trip(
    id: TripId,
    route: Route,
    train: TrainId,
    departure: int,
    arrival: int,
    basePrice: int)

  datatype PassengerType = PassengerType(
    id: PassengerTypeId,
    code: string,
    name: string,
    discountPercent: nat,
    requiresDocument: bool,
    isActive: bool,
    displayOrder: nat)

  /** `Order.Status`: the three choices of the status field. */
  datatype OrderStatus = Pending | Paid | Cancelled

  datatype Order = Order(id: OrderId, user: UserId, status: OrderStatus)

  datatype User = User(id: UserId, isStaff: bool)

  /** A stored ticket; `price` is in millionths of the currency unit. */
  datatype Ticket = Ticket(
    id: TicketId,
    trip: Trip,
    wagon: Wagon,
    seatNumber: nat,
    order: OrderId,
    passengerType: PassengerType,
    price: int,
    passengerName: string,
    passengerDocument: string)

  /** The columns of `unique_together = ["trip", "wagon", "seat_number"]`. */
  datatype SeatKey = SeatKey(trip: TripId, wagon: WagonId, seat: int)

  function KeyOf(t: Ticket): SeatKey
  {
    SeatKey(t.trip.id, t.wagon.id, t.seatNumber)
  }

  /** The seat-lock invariant: no two stored tickets share a seat key. */
  predicate UniqueSeats(ts: seq<Ticket>)
  {
    forall i, j :: 0 <= i < j < |ts| ==> KeyOf(ts[i]) != KeyOf(ts[j])
  }

  /** Every stored ticket passed the admission rules of `Ticket.clean`:
      its wagon runs on its trip's train and its seat is in 1..seats. */
  predicate Admissible(t: Ticket)
  {
    t.wagon.train == t.trip.train && 1 <= t.seatNumber <= t.wagon.seats
  }

  predicate AllAdmissible(ts: seq<Ticket>)
  {
    forall i :: 0 <= i < |ts| ==> Admissible(ts[i])
  }
}
