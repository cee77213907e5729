/** Ticket admission: `Ticket.clean`, `Ticket.save` (booking/models.py) and the
    request checks of `TicketSerializer` and `OrderCreateSerializer`
    (booking/serializers.py). */
module Tickets {
  import opened Common
  import opened Entities
  import opened Fares
  import opened SeatLock

  /** Why a ticket, or a list of ticket requests, is refused. */
  datatype TicketError =
    | FieldErrors(fields: set<Field>)  // field-level errors, all reported together
    | SeatTaken                        // the (trip, wagon, seat) triple is already stored
    | AllFieldsRequired                // `validate`: a falsy trip, wagon or seat number
    | WagonNotOnTrain
    | InvalidSeat
    | DocumentRequired                 // keyed `passenger_document`

  datatype Field = TripField | WagonField | SeatField | PassengerTypeField

  /** One ticket of a booking request, with its related rows already looked up
      by primary key; an absent entry is `None`. */
  datatype TicketData = TicketData(
    trip: Option<Trip>,
    wagon: Option<Wagon>,
    seatNumber: Option<int>,
    passengerType: Option<PassengerType>,
    passengerName: string,
    passengerDocument: string)

  /** Range of a `PositiveSmallIntegerField`. */
  const MaxSmallInt: int := 32767

  /** A stored ticket other than the one with primary key `pk` holds `key`;
      an unsaved ticket (`pk` is None) excludes nothing. */
  predicate HeldByOther(tickets: seq<Ticket>, key: SeatKey, pk: Option<TicketId>)
  {
    exists i :: 0 <= i < |tickets| && KeyOf(tickets[i]) == key && (pk.None? || tickets[i].id != pk.value)
  }

  /** For an unsaved ticket the query finds exactly the stored seat keys, and
      excluding a primary key only ever removes rows. */
  lemma HeldByOtherKeys(tickets: seq<Ticket>, key: SeatKey, pk: Option<TicketId>)
    ensures HeldByOther(tickets, key, None) <==> key in Keys(tickets)
    ensures HeldByOther(tickets, key, pk) ==> HeldByOther(tickets, key, None)
  {
    KeysMember(tickets, key);
  }

  /** `Ticket.clean`: the wagon must run on the trip's train, then the seat
      must be in 1..seats, then no other stored ticket may hold the seat. */
  function TicketClean(t: Ticket, pk: Option<TicketId>, tickets: seq<Ticket>): (res: Result<Ticket, TicketError>)
    ensures res == Failure(WagonNotOnTrain) <==> t.wagon.train != t.trip.train
    ensures res == Failure(InvalidSeat)
      <==> t.wagon.train == t.trip.train && (t.seatNumber <= 0 || t.seatNumber > t.wagon.seats)
    ensures res == Failure(SeatTaken) <==> Admissible(t) && HeldByOther(tickets, KeyOf(t), pk)
    ensures res.Success? <==> Admissible(t) && !HeldByOther(tickets, KeyOf(t), pk)
    ensures res.Success? ==> res.value == t
  {
    if t.wagon.train != t.trip.train then Failure(WagonNotOnTrain)
    else if t.seatNumber <= 0 || t.seatNumber > t.wagon.seats then Failure(InvalidSeat)
    else if HeldByOther(tickets, KeyOf(t), pk) then Failure(SeatTaken)
    else Success(t)
  }

  /** A new ticket that `Ticket.clean` accepts can be stored without breaking
      the seat lock or the admission rules of the stored tickets. */
  lemma {:induction false} CleanKeepsSeatLock(t: Ticket, tickets: seq<Ticket>)
    requires UniqueSeats(tickets) && AllAdmissible(tickets)
    requires TicketClean(t, None, tickets).Success?
    ensures UniqueSeats(tickets + [t]) && AllAdmissible(tickets + [t])
  {
    var all := tickets + [t];
    forall i, j | 0 <= i < j < |all|
      ensures KeyOf(all[i]) != KeyOf(all[j])
    {
      if j == |tickets| {
        assert all[i] == tickets[i];
        assert KeyOf(tickets[i]) != KeyOf(t);
      }
    }
    assert forall i :: 0 <= i < |all| ==> Admissible(all[i]) by {
      forall i | 0 <= i < |all|
        ensures Admissible(all[i])
      {
        if i < |tickets| {
          assert all[i] == tickets[i];
        }
      }
    }
  }

  /** Re-cleaning a stored ticket under its own primary key does not see it
      as taking its own seat. */
  lemma {:induction false} StoredTicketCleansItself(tickets: seq<Ticket>, k: nat)
    requires UniqueSeats(tickets) && AllAdmissible(tickets)
    requires k < |tickets|
    ensures TicketClean(tickets[k], Some(tickets[k].id), tickets) == Success(tickets[k])
  {
    var t := tickets[k];
    forall i | 0 <= i < |tickets| && tickets[i].id != t.id
      ensures KeyOf(tickets[i]) != KeyOf(t)
    {
      if i < k {
        assert KeyOf(tickets[i]) != KeyOf(tickets[k]);
      } else {
        assert KeyOf(tickets[k]) != KeyOf(tickets[i]);
      }
    }
  }

  /** `Ticket.save`: the price is recomputed by `compute_price` before the row
      is written; every other column is kept. */
  function PrepareForSave(t: Ticket): (saved: Ticket)
    ensures saved.price == ComputePrice(t.trip, t.wagon, t.passengerType)
    ensures saved.(price := t.price) == t
  {
    t.(price := ComputePrice(t.trip, t.wagon, t.passengerType))
  }

  /** Whatever price the caller supplies, the saved ticket is the same. */
  lemma SaveIgnoresSuppliedPrice(t: Ticket, p: int, q: int)
    ensures PrepareForSave(t.(price := p)) == PrepareForSave(t.(price := q))
    ensures PrepareForSave(t.(price := p)).price == ComputePrice(t.trip, t.wagon, t.passengerType)
  {
    assert t.(price := p).(price := q) == t.(price := q);
  }

  /** The fields of a request that are absent, or whose value the field
      rejects (a seat number outside the small-integer range). */
  function BadFields(d: TicketData): (fields: set<Field>)
    ensures TripField in fields <==> d.trip.None?
    ensures WagonField in fields <==> d.wagon.None?
    ensures SeatField in fields <==> d.seatNumber.None? || !(0 <= d.seatNumber.value <= MaxSmallInt)
    ensures PassengerTypeField in fields <==> d.passengerType.None?
  {
    (if d.trip.None? then {TripField} else {})
    + (if d.wagon.None? then {WagonField} else {})
    + (if d.seatNumber.None? || !(0 <= d.seatNumber.value <= MaxSmallInt) then {SeatField} else {})
    + (if d.passengerType.None? then {PassengerTypeField} else {})
  }

  /** The seat key of a request whose fields are all present. */
  function DataKey(d: TicketData): SeatKey
    requires BadFields(d) == {}
  {
    SeatKey(d.trip.value.id, d.wagon.value.id, d.seatNumber.value)
  }

  /** The key is held by a stored ticket (the query of the unique-together
      validator; a new ticket excludes no row). */
  predicate KeyTaken(tickets: seq<Ticket>, key: SeatKey)
  {
    exists i :: 0 <= i < |tickets| && KeyOf(tickets[i]) == key
  }

  /** `TicketSerializer.run_validation` on one request: the field checks, then
      the unique-together validator, then `validate`. */
  function ValidateTicket(d: TicketData, tickets: seq<Ticket>): (res: Result<TicketData, TicketError>)
    ensures res.Failure? && res.error.FieldErrors? <==> BadFields(d) != {}
    ensures res.Failure? && res.error.FieldErrors? ==> res.error.fields == BadFields(d)
    ensures res == Failure(SeatTaken) <==> BadFields(d) == {} && KeyTaken(tickets, DataKey(d))
    ensures res == Failure(AllFieldsRequired)
      <==> BadFields(d) == {} && !KeyTaken(tickets, DataKey(d)) && d.seatNumber.value == 0
    ensures res == Failure(DocumentRequired) ==>
      d.passengerType.value.requiresDocument && d.passengerDocument == ""
    ensures res.Success? <==>
      BadFields(d) == {} && !KeyTaken(tickets, DataKey(d))
      && d.wagon.value.train == d.trip.value.train
      && 1 <= d.seatNumber.value <= d.wagon.value.seats
      && !(d.passengerType.value.requiresDocument && d.passengerDocument == "")
    ensures res.Success? ==> res.value == d
    ensures res == Failure(WagonNotOnTrain)
      <==> BadFields(d) == {} && !KeyTaken(tickets, DataKey(d)) && d.seatNumber.value != 0
           && d.wagon.value.train != d.trip.value.train
    ensures res == Failure(InvalidSeat)
      <==> BadFields(d) == {} && !KeyTaken(tickets, DataKey(d)) && d.seatNumber.value != 0
           && d.wagon.value.train == d.trip.value.train && d.seatNumber.value > d.wagon.value.seats
  {
    var bad := BadFields(d);
    if bad != {} then Failure(FieldErrors(bad))
    else if KeyTaken(tickets, DataKey(d)) then Failure(SeatTaken)
    else if d.seatNumber.value == 0 then Failure(AllFieldsRequired)
    else if d.wagon.value.train != d.trip.value.train then Failure(WagonNotOnTrain)
    else if d.seatNumber.value <= 0 || d.seatNumber.value > d.wagon.value.seats then Failure(InvalidSeat)
    else if d.passengerType.value.requiresDocument && d.passengerDocument == "" then Failure(DocumentRequired)
    else Success(d)
  }

  /** The row `Ticket.objects.create(order=..., price=..., **data)` builds
      before `save`. */
  function RawTicket(d: TicketData, id: TicketId, order: OrderId, price: int): Ticket
    requires BadFields(d) == {}
  {
    Ticket(id, d.trip.value, d.wagon.value, d.seatNumber.value as nat, order,
           d.passengerType.value, price, d.passengerName, d.passengerDocument)
  }

  /** The ticket a request becomes once saved. */
  function TicketOf(d: TicketData, id: TicketId, order: OrderId): Ticket
    requires BadFields(d) == {}
  {
    PrepareForSave(RawTicket(d, id, order, 0))
  }

  /** A request the serializer accepts becomes a ticket that `Ticket.clean`
      would accept as well: the serializer enforces the model's rules. */
  lemma ValidatedTicketIsClean(d: TicketData, tickets: seq<Ticket>, id: TicketId, order: OrderId)
    requires ValidateTicket(d, tickets).Success?
    ensures TicketClean(TicketOf(d, id, order), None, tickets).Success?
  {
    var t := TicketOf(d, id, order);
    assert KeyOf(t) == DataKey(d);
    if HeldByOther(tickets, KeyOf(t), None) {
      var i :| 0 <= i < |tickets| && KeyOf(tickets[i]) == KeyOf(t);
      assert KeyTaken(tickets, DataKey(d));
    }
  }

  /** `OrderCreateSerializer` on the `tickets` field: absent is a field error;
      otherwise every item is validated and all item errors are reported
      together; only then does `validate_tickets` refuse an empty list. */
  datatype OrderRequestError =
    | TicketsRequired
    | ItemErrors(errors: seq<Option<TicketError>>)
    | EmptyOrder

  /** The per-item outcome list of the nested list serializer. */
  function ItemOutcomes(items: seq<TicketData>, tickets: seq<Ticket>): (r: seq<Option<TicketError>>)
    ensures |r| == |items|
    ensures forall i :: 0 <= i < |items| ==>
      (r[i].None? <==> ValidateTicket(items[i], tickets).Success?)
      && (r[i].Some? ==> r[i].value == ValidateTicket(items[i], tickets).error)
  {
    seq(|items|, i requires 0 <= i < |items| =>
      var v := ValidateTicket(items[i], tickets);
      if v.Success? then None else Some(v.error))
  }

  function ValidateTickets(input: Option<seq<TicketData>>, tickets: seq<Ticket>): (res: Result<seq<TicketData>, OrderRequestError>)
    ensures res == Failure(TicketsRequired) <==> input.None?
    ensures res == Failure(EmptyOrder) <==> input == Some([])
    ensures res.Success? <==>
      input.Some? && input.value != []
      && forall i :: 0 <= i < |input.value| ==> ValidateTicket(input.value[i], tickets).Success?
    ensures res.Success? ==> res.value == input.value
    ensures res.Failure? && res.error.ItemErrors? ==>
      input.Some? && res.error.errors == ItemOutcomes(input.value, tickets)
      && exists i :: 0 <= i < |input.value| && ValidateTicket(input.value[i], tickets).Failure?
  {
    if input.None? then Failure(TicketsRequired)
    else
      var outcomes := ItemOutcomes(input.value, tickets);
      if exists i :: 0 <= i < |outcomes| && outcomes[i].Some? then Failure(ItemErrors(outcomes))
      else if input.value == [] then Failure(EmptyOrder)
      else Success(input.value)
  }
}
