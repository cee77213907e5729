/** Orders: `Order.total_price` (booking/models.py), the order-creation loop
    shared by `OrderCreateSerializer.create` (booking/serializers.py) and
    `OrderService.create_order`, and the rest of `OrderService`
    (booking/services/order_service.py).

    The database is a `BookingStore` object whose table fields the methods
    reassign; `transaction.atomic` is an all-or-nothing update: on any error
    the tables are put back as they were. */
module Orders {
  import opened Common
  import opened Entities
  import opened Fares
  import opened SeatLock
  import opened Tickets

  /** Why writing one ticket row fails inside the creation loop. */
  datatype InsertError =
    | MissingKey        // `ticket_data["trip"]` or `ticket_data["wagon"]` raises KeyError
    | NoPassengerType   // `save` -> `compute_price` reads an absent passenger type
    | BadSeatValue      // the seat column is NULL, negative (the field's CHECK constraint), or above 32767 (PostgreSQL's smallint)
    | DuplicateSeat     // the unique-together constraint raises IntegrityError

  /** The database's verdict on inserting the row built from `d` next to `ts`. */
  function InsertCheck(d: TicketData, ts: seq<Ticket>): (e: Option<InsertError>)
    ensures e.None? <==> BadFields(d) == {} && !KeyTaken(ts, DataKey(d))
    ensures e == Some(DuplicateSeat) <==> BadFields(d) == {} && KeyTaken(ts, DataKey(d))
    ensures e == Some(MissingKey) <==> d.trip.None? || d.wagon.None?
  {
    if d.trip.None? || d.wagon.None? then Some(MissingKey)
    else if d.passengerType.None? then Some(NoPassengerType)
    else if d.seatNumber.None? || !(0 <= d.seatNumber.value <= MaxSmallInt) then Some(BadSeatValue)
    else if KeyTaken(ts, DataKey(d)) then Some(DuplicateSeat)
    else None
  }

  predicate FieldsPresent(reqs: seq<TicketData>)
  {
    forall i :: 0 <= i < |reqs| ==> BadFields(reqs[i]) == {}
  }

  /** The rows the loop writes for `reqs`, numbered from `first`, all in
      order `o`; each price is the one `save` computes. */
  function Issue(reqs: seq<TicketData>, first: TicketId, o: OrderId): (r: seq<Ticket>)
    requires FieldsPresent(reqs)
    ensures |r| == |reqs|
  {
    if reqs == [] then []
    else Issue(reqs[..|reqs| - 1], first, o) + [TicketOf(reqs[|reqs| - 1], first + |reqs| - 1, o)]
  }

  lemma IssueSnoc(reqs: seq<TicketData>, i: nat, first: TicketId, o: OrderId)
    requires i < |reqs| && FieldsPresent(reqs[..i]) && FieldsPresent(reqs[..i + 1])
    ensures Issue(reqs[..i + 1], first, o) == Issue(reqs[..i], first, o) + [TicketOf(reqs[i], first + i, o)]
  {
    assert reqs[..i + 1][..i] == reqs[..i];
  }

  /** The issued rows carry the request's seat, trip, wagon and passenger, the
      consecutive ids from `first`, the order `o` and the `compute_price` fare. */
  lemma {:induction false} IssueAt(reqs: seq<TicketData>, first: TicketId, o: OrderId, i: nat)
    requires FieldsPresent(reqs) && i < |reqs|
    ensures Issue(reqs, first, o)[i].id == first + i
    ensures Issue(reqs, first, o)[i].order == o
    ensures KeyOf(Issue(reqs, first, o)[i]) == DataKey(reqs[i])
    ensures Issue(reqs, first, o)[i].trip == reqs[i].trip.value
    ensures Issue(reqs, first, o)[i].wagon == reqs[i].wagon.value
    ensures Issue(reqs, first, o)[i].price
      == ComputePrice(reqs[i].trip.value, reqs[i].wagon.value, reqs[i].passengerType.value)
  {
    if i < |reqs| - 1 {
      IssueAt(reqs[..|reqs| - 1], first, o, i);
    }
  }

  /** Every request can be written: all fields present, no seat already
      stored, and no seat asked for twice. */
  predicate AllInsertable(ts: seq<Ticket>, reqs: seq<TicketData>)
  {
    && FieldsPresent(reqs)
    && (forall i :: 0 <= i < |reqs| ==> !KeyTaken(ts, DataKey(reqs[i])))
    && (forall i, j :: 0 <= i < j < |reqs| ==> DataKey(reqs[i]) != DataKey(reqs[j]))
  }

  /** The error of writing `d` after the rows of `prefix` went in next to `ts`. */
  function StepError(ts: seq<Ticket>, prefix: seq<TicketData>, d: TicketData): Option<InsertError>
    requires FieldsPresent(prefix)
  {
    if d.trip.None? || d.wagon.None? then Some(MissingKey)
    else if d.passengerType.None? then Some(NoPassengerType)
    else if d.seatNumber.None? || !(0 <= d.seatNumber.value <= MaxSmallInt) then Some(BadSeatValue)
    else if KeyTaken(ts, DataKey(d)) || exists j :: 0 <= j < |prefix| && DataKey(prefix[j]) == DataKey(d)
    then Some(DuplicateSeat)
    else None
  }

  /** The loop stops at request `i` with error `e`. */
  predicate FirstFailure(ts: seq<Ticket>, reqs: seq<TicketData>, e: InsertError)
  {
    exists i :: 0 <= i < |reqs| && AllInsertable(ts, reqs[..i]) && StepError(ts, reqs[..i], reqs[i]) == Some(e)
  }

  /** A prefix of writable requests is writable. */
  lemma AllInsertablePrefix(ts: seq<Ticket>, reqs: seq<TicketData>, n: nat)
    requires AllInsertable(ts, reqs) && n <= |reqs|
    ensures AllInsertable(ts, reqs[..n])
  {
    var p := reqs[..n];
    assert forall i :: 0 <= i < n ==> p[i] == reqs[i];
  }

  /** One more request keeps the list writable exactly when its step succeeds. */
  lemma StepErrorNoneIff(ts: seq<Ticket>, p: seq<TicketData>, d: TicketData)
    requires AllInsertable(ts, p)
    ensures StepError(ts, p, d).None? <==> AllInsertable(ts, p + [d])
  {
    var q := p + [d];
    assert forall i :: 0 <= i < |p| ==> q[i] == p[i];
    if StepError(ts, p, d).None? {
      forall i, j | 0 <= i < j < |q|
        ensures DataKey(q[i]) != DataKey(q[j])
      {
        if j == |p| {
          assert q[i] == p[i];
        }
      }
    }
    if AllInsertable(ts, q) {
      assert q[|p|] == d;
      forall j | 0 <= j < |p|
        ensures DataKey(p[j]) != DataKey(d)
      {
        assert q[j] == p[j];
      }
    }
  }

  lemma KeyTakenSnoc(ts: seq<Ticket>, t: Ticket, k: SeatKey)
    ensures KeyTaken(ts + [t], k) <==> KeyTaken(ts, k) || KeyOf(t) == k
  {
    var all := ts + [t];
    if KeyTaken(ts, k) {
      var i :| 0 <= i < |ts| && KeyOf(ts[i]) == k;
      assert all[i] == ts[i];
    }
    if KeyOf(t) == k {
      assert all[|ts|] == t;
    }
    if KeyTaken(all, k) {
      var i :| 0 <= i < |all| && KeyOf(all[i]) == k;
      if i < |ts| {
        assert all[i] == ts[i];
      }
    }
  }

  /** The stored keys after issuing `p` are the old keys and the requests' keys. */
  lemma {:induction false} KeyTakenIssue(ts: seq<Ticket>, p: seq<TicketData>, first: TicketId, o: OrderId, k: SeatKey)
    requires FieldsPresent(p)
    ensures KeyTaken(ts + Issue(p, first, o), k)
      <==> KeyTaken(ts, k) || exists j :: 0 <= j < |p| && DataKey(p[j]) == k
  {
    if p != [] {
      var init, d := p[..|p| - 1], p[|p| - 1];
      assert FieldsPresent(init);
      KeyTakenIssue(ts, init, first, o, k);
      var t := TicketOf(d, first + |init|, o);
      assert ts + Issue(p, first, o) == (ts + Issue(init, first, o)) + [t];
      KeyTakenSnoc(ts + Issue(init, first, o), t, k);
      assert KeyOf(t) == DataKey(d);
      if exists j :: 0 <= j < |p| && DataKey(p[j]) == k {
        var j :| 0 <= j < |p| && DataKey(p[j]) == k;
        if j < |init| {
          assert init[j] == p[j];
        }
      }
      if exists j :: 0 <= j < |init| && DataKey(init[j]) == k {
        var j :| 0 <= j < |init| && DataKey(init[j]) == k;
        assert p[j] == init[j];
      }
    } else {
      assert ts + Issue(p, first, o) == ts;
    }
  }

  /** What the database says about the next row is the step error of the
      request list so far. */
  lemma InsertCheckAfterIssue(ts: seq<Ticket>, p: seq<TicketData>, first: TicketId, o: OrderId, d: TicketData)
    requires FieldsPresent(p)
    ensures InsertCheck(d, ts + Issue(p, first, o)) == StepError(ts, p, d)
  {
    if BadFields(d) == {} {
      KeyTakenIssue(ts, p, first, o, DataKey(d));
    }
  }

  /** One step of the creation loop: after the rows of `reqs[..i]` went in
      next to `t0`, the database's verdict on request `i` either names the
      first failure of the whole list, or lets its row in and extends the
      writable prefix; the price supplied with the row does not matter. */
  lemma StepFacts(t0: seq<Ticket>, reqs: seq<TicketData>, i: nat, first: TicketId, o: OrderId, ts: seq<Ticket>, price: int)
    requires i < |reqs| && AllInsertable(t0, reqs[..i])
    requires ts == t0 + Issue(reqs[..i], first, o)
    ensures InsertCheck(reqs[i], ts).Some? ==>
      FirstFailure(t0, reqs, InsertCheck(reqs[i], ts).value) && !AllInsertable(t0, reqs)
    ensures InsertCheck(reqs[i], ts).None? ==>
      && BadFields(reqs[i]) == {}
      && AllInsertable(t0, reqs[..i + 1])
      && !KeyTaken(ts, KeyOf(TicketOf(reqs[i], first + i, o)))
      && PrepareForSave(RawTicket(reqs[i], first + i, o, price)) == TicketOf(reqs[i], first + i, o)
      && t0 + Issue(reqs[..i + 1], first, o) == ts + [TicketOf(reqs[i], first + i, o)]
  {
    InsertCheckAfterIssue(t0, reqs[..i], first, o, reqs[i]);
    StepErrorNoneIff(t0, reqs[..i], reqs[i]);
    assert reqs[..i + 1] == reqs[..i] + [reqs[i]];
    if InsertCheck(reqs[i], ts).Some? {
      if AllInsertable(t0, reqs) {
        AllInsertablePrefix(t0, reqs, i + 1);
      }
    } else {
      SaveIgnoresSuppliedPrice(RawTicket(reqs[i], first + i, o, 0), 0, price);
      assert RawTicket(reqs[i], first + i, o, 0).(price := price) == RawTicket(reqs[i], first + i, o, price);
      IssueSnoc(reqs, i, first, o);
    }
  }

  /** The sum of the prices of the tickets of order `o`: `Order.total_price`. */
  function TotalPrice(ts: seq<Ticket>, o: OrderId): int
  {
    if ts == [] then 0
    else TotalPrice(ts[..|ts| - 1], o) + (if ts[|ts| - 1].order == o then ts[|ts| - 1].price else 0)
  }

  lemma {:induction false} TotalPriceAppend(a: seq<Ticket>, b: seq<Ticket>, o: OrderId)
    ensures TotalPrice(a + b, o) == TotalPrice(a, o) + TotalPrice(b, o)
  {
    if b != [] {
      TotalPriceAppend(a, b[..|b| - 1], o);
      assert (a + b)[..|a + b| - 1] == a + b[..|b| - 1];
    } else {
      assert a + b == a;
    }
  }

  /** An order none of whose tickets is stored totals zero. */
  lemma {:induction false} TotalPriceWithoutTickets(ts: seq<Ticket>, o: OrderId)
    requires forall i :: 0 <= i < |ts| ==> ts[i].order != o
    ensures TotalPrice(ts, o) == 0
  {
    if ts != [] {
      TotalPriceWithoutTickets(ts[..|ts| - 1], o);
    }
  }

  /** An order whose tickets have non-negative prices totals a non-negative amount. */
  lemma {:induction false} TotalPriceNonNegative(ts: seq<Ticket>, o: OrderId)
    requires forall i :: 0 <= i < |ts| && ts[i].order == o ==> ts[i].price >= 0
    ensures TotalPrice(ts, o) >= 0
  {
    if ts != [] {
      TotalPriceNonNegative(ts[..|ts| - 1], o);
    }
  }

  /** The sum of the `compute_price` fares of the requests. */
  function RequestFares(reqs: seq<TicketData>): int
    requires FieldsPresent(reqs)
  {
    if reqs == [] then 0
    else
      var d := reqs[|reqs| - 1];
      RequestFares(reqs[..|reqs| - 1]) + ComputePrice(d.trip.value, d.wagon.value, d.passengerType.value)
  }

  /** A freshly created order totals the `compute_price` fares of its requests,
      whatever the code-based fares were. */
  lemma {:induction false} IssueTotal(reqs: seq<TicketData>, first: TicketId, o: OrderId)
    requires FieldsPresent(reqs)
    ensures TotalPrice(Issue(reqs, first, o), o) == RequestFares(reqs)
  {
    if reqs != [] {
      var init := reqs[..|reqs| - 1];
      IssueTotal(init, first, o);
      var t := TicketOf(reqs[|reqs| - 1], first + |init|, o);
      TotalPriceAppend(Issue(init, first, o), [t], o);
      assert [t][..0] == [];
    }
  }

  /** `get_orders_for_user`: the user's orders, newest first (`ordering =
      ["-created_at"]`; orders are stored in creation order). */
  function OrdersForUser(orders: seq<Order>, user: User): (r: seq<Order>)
    ensures |r| <= |orders|
  {
    Reverse(Filter(orders, (o: Order) => o.user == user.id))
  }

  /** `get_all_orders`: every order, newest first. */
  function AllOrders(orders: seq<Order>): (r: seq<Order>)
    ensures |r| == |orders|
  {
    Reverse(orders)
  }

  function Reverse<T>(s: seq<T>): (r: seq<T>)
    ensures |r| == |s|
    ensures forall i :: 0 <= i < |s| ==> r[i] == s[|s| - 1 - i]
  {
    if s == [] then [] else [s[|s| - 1]] + Reverse(s[..|s| - 1])
  }

  /** Exactly the orders of the user are listed. */
  lemma OrdersForUserMembers(orders: seq<Order>, user: User, o: Order)
    ensures o in OrdersForUser(orders, user) <==> o in orders && o.user == user.id
  {
    var p := (o: Order) => o.user == user.id;
    var f := Filter(orders, p);
    FilterMembers(orders, p);
    var r := OrdersForUser(orders, user);
    if o in r {
      var i :| 0 <= i < |r| && r[i] == o;
      assert f[|f| - 1 - i] == o;
    }
    if o in orders && o.user == user.id {
      var i :| 0 <= i < |orders| && orders[i] == o;
      assert p(orders[i]);
      var j :| 0 <= j < |f| && f[j] == o;
      assert r[|f| - 1 - j] == o;
    }
  }

  /** Every order is listed, once per stored row. */
  lemma AllOrdersMembers(orders: seq<Order>)
    ensures multiset(AllOrders(orders)) == multiset(orders)
  {
    ReverseMultiset(orders);
  }

  lemma {:induction false} ReverseMultiset<T>(s: seq<T>)
    ensures multiset(Reverse(s)) == multiset(s)
  {
    if s != [] {
      ReverseMultiset(s[..|s| - 1]);
      assert s == s[..|s| - 1] + [s[|s| - 1]];
    }
  }

  /** Order ids grow along the store: creation order. */
  predicate IdsIncreasing(orders: seq<Order>)
  {
    forall i, j :: 0 <= i < j < |orders| ==> orders[i].id < orders[j].id
  }

  /** With orders stored in creation order, both listings put the newest
      (largest id) first. */
  lemma NewestFirst(orders: seq<Order>, user: User)
    requires IdsIncreasing(orders)
    ensures forall i, j :: 0 <= i < j < |AllOrders(orders)| ==> AllOrders(orders)[i].id > AllOrders(orders)[j].id
    ensures forall i, j :: 0 <= i < j < |OrdersForUser(orders, user)| ==>
      OrdersForUser(orders, user)[i].id > OrdersForUser(orders, user)[j].id
  {
    FilterIncreasing(orders, (o: Order) => o.user == user.id);
  }

  lemma {:induction false} FilterIncreasing(orders: seq<Order>, p: Order -> bool)
    requires IdsIncreasing(orders)
    ensures IdsIncreasing(Filter(orders, p))
  {
    if orders != [] {
      var init := orders[..|orders| - 1];
      FilterIncreasing(init, p);
      FilterMembers(init, p);
      var f := Filter(init, p);
      forall i | 0 <= i < |f|
        ensures f[i].id < orders[|orders| - 1].id
      {
        var k :| 0 <= k < |init| && init[k] == f[i];
        assert orders[k] == init[k];
      }
    }
  }

  /** Why `cancel_order` refuses. */
  datatype CancelError = NotFound | Forbidden | NotPending | TooLate

  /** Some ticket of order `o` departs within 24 hours of `now` (inclusive). */
  predicate DepartsWithinDay(ts: seq<Ticket>, o: OrderId, now: int)
  {
    exists i :: 0 <= i < |ts| && ts[i].order == o && ts[i].trip.departure <= now + SecondsPerDay
  }

  /** The 24-hour window only closes: once some ticket of the order departs
      within a day of `now`, it does so at every later time as well. */
  lemma DepartsWithinDayLater(ts: seq<Ticket>, o: OrderId, now: int, later: int)
    requires now <= later && DepartsWithinDay(ts, o, now)
    ensures DepartsWithinDay(ts, o, later)
  {
  }

  /** The checks `cancel_order` makes once the order is found: permission
      (staff, or the owner), then the pending status, then the 24-hour window
      over every ticket of the order. */
  function CancelCheck(order: Order, user: User, ts: seq<Ticket>, now: int): (e: Option<CancelError>)
    ensures e == Some(Forbidden) <==> !user.isStaff && order.user != user.id
    ensures e == Some(NotPending) <==> (user.isStaff || order.user == user.id) && order.status != Pending
    ensures e == Some(TooLate) <==>
      (user.isStaff || order.user == user.id) && order.status == Pending && DepartsWithinDay(ts, order.id, now)
    ensures e.None? <==>
      (user.isStaff || order.user == user.id) && order.status == Pending && !DepartsWithinDay(ts, order.id, now)
    ensures e != Some(NotFound)
  {
    if !user.isStaff && order.user != user.id then Some(Forbidden)
    else if order.status != Pending then Some(NotPending)
    else if DepartsWithinDay(ts, order.id, now) then Some(TooLate)
    else None
  }

  /** An owned pending order with no tickets can always be cancelled: the
      window loop has nothing to look at. */
  lemma EmptyOrderCancellable(order: Order, user: User, ts: seq<Ticket>, now: int)
    requires order.user == user.id && order.status == Pending
    requires forall i :: 0 <= i < |ts| ==> ts[i].order != order.id
    ensures CancelCheck(order, user, ts, now).None?
  {
  }

  /** The index of the order with id `id`: `Order.objects.get(id=...)`. */
  function FindOrder(orders: seq<Order>, id: OrderId): (r: Option<nat>)
    ensures r.None? <==> forall i :: 0 <= i < |orders| ==> orders[i].id != id
    ensures r.Some? ==> r.value < |orders| && orders[r.value].id == id
    ensures r.Some? ==> forall i :: 0 <= i < r.value ==> orders[i].id != id
  {
    if orders == [] then None
    else if orders[0].id == id then Some(0)
    else
      var rest := FindOrder(orders[1..], id);
      if rest.None? then None else Some(rest.value + 1)
  }

  /** A fresh order, none of whose tickets was stored before, totals the
      `compute_price` fares of the rows written for it. */
  lemma NewOrderTotal(ts: seq<Ticket>, reqs: seq<TicketData>, first: TicketId, o: OrderId)
    requires FieldsPresent(reqs)
    requires forall i :: 0 <= i < |ts| ==> ts[i].order < o
    ensures TotalPrice(ts + Issue(reqs, first, o), o) == RequestFares(reqs)
  {
    TotalPriceWithoutTickets(ts, o);
    TotalPriceAppend(ts, Issue(reqs, first, o), o);
    IssueTotal(reqs, first, o);
  }

  /** Why the creation loop as written stops at a request: a missing key,
      the child fare's `Decimal * float`, or `Ticket.save` reading the
      attribute `wagon_type`, which a wagon does not have. */
  datatype SaveFault = KeyMissing | DecimalTimesFloat | NoWagonTypeAttribute

  /** The fault the loop as written meets at request `d`: it reads the trip
      and wagon keys, computes the code fare, and then `Ticket.save` calls
      `compute_price`, whose first line reads `wagon.wagon_type`. No request
      gets through. */
  function RowFaultAsWritten(d: TicketData): (e: SaveFault)
    ensures e == KeyMissing <==> d.trip.None? || d.wagon.None?
    ensures e == DecimalTimesFloat <==>
      d.trip.Some? && d.wagon.Some? && CodeFareAsWritten(d.trip.value, d.wagon.value, d.passengerType).None?
    ensures e == NoWagonTypeAttribute <==>
      d.trip.Some? && d.wagon.Some? && CodeFareAsWritten(d.trip.value, d.wagon.value, d.passengerType).Some?
  {
    if d.trip.None? || d.wagon.None? then KeyMissing
    else if CodeFareAsWritten(d.trip.value, d.wagon.value, d.passengerType).None? then DecimalTimesFloat
    else NoWagonTypeAttribute
  }

  /** With the wagon's `type` read as intended, one request for a free seat
      with all its fields can be written, where the loop as written refuses
      it. */
  lemma SingleRequestInsertable(d: TicketData, ts: seq<Ticket>)
    requires BadFields(d) == {} && !KeyTaken(ts, DataKey(d))
    ensures AllInsertable(ts, [d])
    ensures RowFaultAsWritten(d) != KeyMissing
  {
  }

  /** Why a booking request through the serializer is refused. */
  datatype SubmitError = Invalid(request: OrderRequestError) | Rejected(insert: InsertError)

  /** Trips and wagons the requests name are stored rows (the related fields
      were looked up by primary key). */
  predicate RowsStored(trips: seq<Trip>, wagons: seq<Wagon>, reqs: seq<TicketData>)
  {
    forall i :: 0 <= i < |reqs| ==>
      (reqs[i].trip.Some? ==> reqs[i].trip.value in trips)
      && (reqs[i].wagon.Some? ==> reqs[i].wagon.value in wagons)
  }

  /** No seat is asked for twice in one request list. */
  predicate DistinctKeys(reqs: seq<TicketData>)
    requires FieldsPresent(reqs)
  {
    forall i, j :: 0 <= i < j < |reqs| ==> DataKey(reqs[i]) != DataKey(reqs[j])
  }

  /** Items are checked only against stored tickets, not against each other:
      two requests for the same free seat pass validation, and the insert
      loop then refuses the list. */
  lemma SameSeatTwice(d: TicketData, ts: seq<Ticket>)
    requires ValidateTicket(d, ts).Success?
    ensures ValidateTickets(Some([d, d]), ts) == Success([d, d])
    ensures !AllInsertable(ts, [d, d])
  {
    assert DataKey([d, d][0]) == DataKey([d, d][1]);
  }

  /** A validated request list is writable exactly when no seat repeats. */
  lemma ValidatedInsertableIff(reqs: seq<TicketData>, ts: seq<Ticket>)
    requires ValidateTickets(Some(reqs), ts).Success?
    ensures FieldsPresent(reqs)
    ensures AllInsertable(ts, reqs) <==> DistinctKeys(reqs)
  {
    assert forall i :: 0 <= i < |reqs| ==> ValidateTicket(reqs[i], ts).Success?;
  }

  /** Validated requests become admissible tickets. */
  lemma {:induction false} IssueAdmissible(reqs: seq<TicketData>, ts: seq<Ticket>, first: TicketId, o: OrderId)
    requires forall i :: 0 <= i < |reqs| ==> ValidateTicket(reqs[i], ts).Success?
    ensures FieldsPresent(reqs)
    ensures AllAdmissible(Issue(reqs, first, o))
  {
    assert FieldsPresent(reqs);
    forall i | 0 <= i < |reqs|
      ensures Admissible(Issue(reqs, first, o)[i])
    {
      IssueAt(reqs, first, o, i);
      assert ValidateTicket(reqs[i], ts).Success?;
    }
  }

  lemma AdmissibleAppend(a: seq<Ticket>, b: seq<Ticket>)
    requires AllAdmissible(a) && AllAdmissible(b)
    ensures AllAdmissible(a + b)
  {
    forall i | 0 <= i < |a + b|
      ensures Admissible((a + b)[i])
    {
      if i < |a| {
        assert (a + b)[i] == a[i];
      } else {
        assert (a + b)[i] == b[i - |a|];
      }
    }
  }

  /** The database's own guarantees over the stored rows and the two id
      counters: foreign keys resolve, the seat triple is unique, and ids are
      handed out in increasing order. */
  ghost predicate StoreInvariant(trips: seq<Trip>, wagons: seq<Wagon>, orders: seq<Order>, tickets: seq<Ticket>,
                                 nextOrderId: OrderId, nextTicketId: TicketId)
  {
    && RowsAgree(trips, wagons, tickets)
    && UniqueSeats(tickets)
    && IdsIncreasing(orders)
    && (forall i :: 0 <= i < |orders| ==> orders[i].id < nextOrderId)
    && (forall i, j :: 0 <= i < j < |tickets| ==> tickets[i].id < tickets[j].id)
    && (forall i :: 0 <= i < |tickets| ==> tickets[i].id < nextTicketId && tickets[i].order < nextOrderId)
  }

  class BookingStore {
    var trips: seq<Trip>
    var wagons: seq<Wagon>
    var orders: seq<Order>
    var tickets: seq<Ticket>
    var nextOrderId: OrderId
    var nextTicketId: TicketId

    /** The database's own guarantees: foreign keys resolve, the seat triple
        is unique, and ids are handed out in increasing order. */
    ghost predicate Valid()
      reads this
    {
      StoreInvariant(trips, wagons, orders, tickets, nextOrderId, nextTicketId)
    }

    constructor (trips: seq<Trip>, wagons: seq<Wagon>)
      requires RowsAgree(trips, wagons, [])
      ensures Valid()
      ensures this.trips == trips && this.wagons == wagons
      ensures orders == [] && tickets == []
    {
      this.trips := trips;
      this.wagons := wagons;
      orders := [];
      tickets := [];
      nextOrderId := 1;
      nextTicketId := 1;
    }

    /** The creation loop inside `transaction.atomic`: one pending order,
        then one row per request in order; the first failing row undoes
        everything. */
    method CreateOrder(user: User, reqs: seq<TicketData>) returns (res: Result<Order, InsertError>)
      requires Valid()
      requires RowsStored(trips, wagons, reqs)
      modifies this
      ensures Valid()
      ensures trips == old(trips) && wagons == old(wagons)
      ensures res.Success? <==> AllInsertable(old(tickets), reqs)
      ensures res.Success? ==>
        && res.value == Order(old(nextOrderId), user.id, Pending)
        && orders == old(orders) + [res.value]
        && tickets == old(tickets) + Issue(reqs, old(nextTicketId), res.value.id)
        && nextOrderId == old(nextOrderId) + 1
        && nextTicketId == old(nextTicketId) + |reqs|
        && TotalPrice(tickets, res.value.id) == RequestFares(reqs)
      ensures res.Failure? ==>
        && FirstFailure(old(tickets), reqs, res.error)
        && orders == old(orders) && tickets == old(tickets)
        && nextOrderId == old(nextOrderId) && nextTicketId == old(nextTicketId)
    {
      var savedOrders, savedTickets, savedOrderId, savedTicketId := orders, tickets, nextOrderId, nextTicketId;
      assert forall i :: 0 <= i < |savedTickets| ==> savedTickets[i].order < savedOrderId;
      ghost var savedValid := StoreInvariant(trips, wagons, savedOrders, savedTickets, savedOrderId, savedTicketId);
      assert savedValid;
      var order := OpenOrder(user);
      var err := InsertRows(reqs, order.id);
      if err.Some? {
        orders, tickets, nextOrderId, nextTicketId := savedOrders, savedTickets, savedOrderId, savedTicketId;
        return Failure(err.value);
      }
      NewOrderTotal(savedTickets, reqs, savedTicketId, order.id);
      return Success(order);
    }

    /** The creation loop as written: the first request already fails
        (`RowFaultAsWritten`), so the transaction rolls back and only an
        empty request list creates an order. */
    method CreateOrderAsWritten(user: User, reqs: seq<TicketData>) returns (res: Result<Order, SaveFault>)
      requires Valid()
      modifies this
      ensures Valid()
      ensures trips == old(trips) && wagons == old(wagons)
      ensures tickets == old(tickets) && nextTicketId == old(nextTicketId)
      ensures res.Success? <==> reqs == []
      ensures res.Success? ==>
        res.value == Order(old(nextOrderId), user.id, Pending) && orders == old(orders) + [res.value]
      ensures res.Failure? ==>
        res.error == RowFaultAsWritten(reqs[0]) && orders == old(orders) && nextOrderId == old(nextOrderId)
    {
      var savedOrders, savedOrderId := orders, nextOrderId;
      ghost var savedValid := StoreInvariant(trips, wagons, savedOrders, tickets, savedOrderId, nextTicketId);
      assert savedValid;
      var order := OpenOrder(user);
      if reqs != [] {
        orders, nextOrderId := savedOrders, savedOrderId;
        return Failure(RowFaultAsWritten(reqs[0]));
      }
      return Success(order);
    }

    /** `Order.objects.create(user=user)`: a pending order under the next
        order id. */
    method OpenOrder(user: User) returns (order: Order)
      requires Valid()
      modifies this
      ensures Valid()
      ensures order == Order(old(nextOrderId), user.id, Pending)
      ensures orders == old(orders) + [order] && nextOrderId == old(nextOrderId) + 1
      ensures trips == old(trips) && wagons == old(wagons)
      ensures tickets == old(tickets) && nextTicketId == old(nextTicketId)
    {
      order := Order(nextOrderId, user.id, Pending);
      var os := orders + [order];
      assert IdsIncreasing(os) by {
        forall i, j | 0 <= i < j < |os|
          ensures os[i].id < os[j].id
        {
          assert os[i] == orders[i];
          if j < |orders| {
            assert os[j] == orders[j];
          }
        }
      }
      assert forall i :: 0 <= i < |os| ==> os[i].id <= nextOrderId by {
        forall i | 0 <= i < |os|
          ensures os[i].id <= nextOrderId
        {
          if i < |orders| {
            assert os[i] == orders[i];
          }
        }
      }
      orders := os;
      nextOrderId := nextOrderId + 1;
    }

    /** `OrderCreateSerializer`: validate the request list against the stored
        tickets, then run the creation loop. Every stored ticket then passes
        the admission rules of `Ticket.clean` if it did before. */
    method SubmitOrder(user: User, input: Option<seq<TicketData>>) returns (res: Result<Order, SubmitError>)
      requires Valid()
      requires input.Some? ==> RowsStored(trips, wagons, input.value)
      modifies this
      ensures Valid()
      ensures trips == old(trips) && wagons == old(wagons)
      ensures old(AllAdmissible(tickets)) ==> AllAdmissible(tickets)
      ensures ValidateTickets(input, old(tickets)).Failure? ==>
        && res == Failure(Invalid(ValidateTickets(input, old(tickets)).error))
        && orders == old(orders) && tickets == old(tickets)
        && nextOrderId == old(nextOrderId) && nextTicketId == old(nextTicketId)
      ensures res.Success? <==>
        ValidateTickets(input, old(tickets)).Success? && FieldsPresent(input.value) && DistinctKeys(input.value)
      ensures res.Success? ==>
        && res.value == Order(old(nextOrderId), user.id, Pending)
        && orders == old(orders) + [res.value]
        && tickets == old(tickets) + Issue(input.value, old(nextTicketId), res.value.id)
      ensures res.Failure? ==>
        orders == old(orders) && tickets == old(tickets)
    {
      var v := ValidateTickets(input, tickets);
      if v.Failure? {
        return Failure(Invalid(v.error));
      }
      ValidatedInsertableIff(input.value, tickets);
      IssueAdmissible(input.value, tickets, nextTicketId, nextOrderId);
      ghost var before := tickets;
      var r := CreateOrder(user, input.value);
      if r.Failure? {
        return Failure(Rejected(r.error));
      }
      if AllAdmissible(before) {
        AdmissibleAppend(before, Issue(input.value, old(nextTicketId), r.value.id));
      }
      return Success(r.value);
    }

    /** `OrderService.cancel_order`: look the order up, check permission,
        status and the 24-hour window over its tickets, then set the status
        to cancelled. Tickets are never touched. */
    method CancelOrder(orderId: OrderId, user: User, now: int) returns (res: Result<Order, CancelError>)
      requires Valid()
      modifies this
      ensures Valid()
      ensures trips == old(trips) && wagons == old(wagons) && tickets == old(tickets)
      ensures nextOrderId == old(nextOrderId) && nextTicketId == old(nextTicketId)
      ensures FindOrder(old(orders), orderId).None? ==> res == Failure(NotFound) && orders == old(orders)
      ensures FindOrder(old(orders), orderId).Some? ==>
        var k := FindOrder(old(orders), orderId).value;
        var check := CancelCheck(old(orders)[k], user, tickets, now);
        && (check.Some? ==> res == Failure(check.value) && orders == old(orders))
        && (check.None? ==>
              && orders == old(orders)[k := old(orders)[k].(status := Cancelled)]
              && res == Success(orders[k]))
    {
      var found := LocateOrder(orderId);
      if found.None? {
        return Failure(NotFound);
      }
      var k := found.value;
      var order := orders[k];
      if !user.isStaff && order.user != user.id {
        return Failure(Forbidden);
      }
      if order.status != Pending {
        return Failure(NotPending);
      }
      var soon := AnyDepartsWithinDay(orderId, now);
      if soon {
        return Failure(TooLate);
      }
      var cancelled := order.(status := Cancelled);
      orders := orders[k := cancelled];
      assert forall j :: 0 <= j < |orders| ==> orders[j].id == old(orders)[j].id;
      return Success(cancelled);
    }

    /** `Order.objects.get(id=order_id)`: the position of the order with
        that id, scanning in store order. */
    method LocateOrder(orderId: OrderId) returns (found: Option<nat>)
      ensures found == FindOrder(orders, orderId)
    {
      var k := 0;
      while k < |orders| && orders[k].id != orderId
        invariant 0 <= k <= |orders|
        invariant forall j :: 0 <= j < k ==> orders[j].id != orderId
      {
        k := k + 1;
      }
      found := if k == |orders| then None else Some(k);
    }

    /** The loop over the order's tickets in `cancel_order`: whether any of
        them departs within 24 hours of `now`. */
    method AnyDepartsWithinDay(orderId: OrderId, now: int) returns (soon: bool)
      ensures soon == DepartsWithinDay(tickets, orderId, now)
    {
      var i := 0;
      while i < |tickets|
        invariant 0 <= i <= |tickets|
        invariant forall j :: 0 <= j < i ==>
          !(tickets[j].order == orderId && tickets[j].trip.departure <= now + SecondsPerDay)
      {
        if tickets[i].order == orderId && tickets[i].trip.departure <= now + SecondsPerDay {
          return true;
        }
        i := i + 1;
      }
      return false;
    }

    /** Cancelling the same order twice: the second call is refused as not
        pending. */
    method CancelTwice(orderId: OrderId, user: User, now: int) returns (first: Result<Order, CancelError>, second: Result<Order, CancelError>)
      requires Valid()
      modifies this
      ensures first.Success? ==> second == Failure(NotPending)
      ensures first.Failure? ==> second == first
    {
      first := CancelOrder(orderId, user, now);
      second := CancelOrder(orderId, user, now);
    }

    /** The loop of the creation step: one row per request, in order,
        stopping at the first row the database refuses. */
    method InsertRows(reqs: seq<TicketData>, o: OrderId) returns (err: Option<InsertError>)
      requires Valid()
      requires RowsStored(trips, wagons, reqs)
      requires o < nextOrderId
      modifies this
      ensures trips == old(trips) && wagons == old(wagons)
      ensures orders == old(orders) && nextOrderId == old(nextOrderId)
      ensures err.None? <==> AllInsertable(old(tickets), reqs)
      ensures err.None? ==>
        && Valid()
        && tickets == old(tickets) + Issue(reqs, old(nextTicketId), o)
        && nextTicketId == old(nextTicketId) + |reqs|
      ensures err.Some? ==> FirstFailure(old(tickets), reqs, err.value)
    {
      var i := 0;
      while i < |reqs|
        invariant 0 <= i <= |reqs|
        invariant trips == old(trips) && wagons == old(wagons)
        invariant orders == old(orders) && nextOrderId == old(nextOrderId)
        invariant AllInsertable(old(tickets), reqs[..i])
        invariant tickets == old(tickets) + Issue(reqs[..i], old(nextTicketId), o)
        invariant nextTicketId == old(nextTicketId) + i
        invariant Valid()
      {
        var e := InsertOne(old(tickets), reqs, i, old(nextTicketId), o);
        if e.Some? {
          return e;
        }
        i := i + 1;
      }
      assert reqs[..i] == reqs;
      return None;
    }

    /** One turn of the creation loop: the code-based fare, then the row for
        request `i`, unless the database refuses it. */
    method InsertOne(ghost t0: seq<Ticket>, reqs: seq<TicketData>, i: nat, ghost first: TicketId, o: OrderId)
      returns (err: Option<InsertError>)
      requires Valid()
      requires RowsStored(trips, wagons, reqs)
      requires o < nextOrderId
      requires i < |reqs| && AllInsertable(t0, reqs[..i])
      requires tickets == t0 + Issue(reqs[..i], first, o) && nextTicketId == first + i
      modifies this
      ensures trips == old(trips) && wagons == old(wagons)
      ensures orders == old(orders) && nextOrderId == old(nextOrderId)
      ensures err.Some? ==> FirstFailure(t0, reqs, err.value) && !AllInsertable(t0, reqs)
      ensures err.None? ==>
        && Valid()
        && AllInsertable(t0, reqs[..i + 1])
        && tickets == t0 + Issue(reqs[..i + 1], first, o)
        && nextTicketId == first + i + 1
    {
      var d := reqs[i];
      var supplied := if d.trip.Some? && d.wagon.Some? then CodeFare(d.trip.value, d.wagon.value, d.passengerType) else 0;
      StepFacts(t0, reqs, i, first, o, tickets, supplied);
      err := InsertCheck(d, tickets);
      if err.None? {
        var row := PrepareForSave(RawTicket(d, nextTicketId, o, supplied));
        assert row == TicketOf(d, first + i, o);
        assert row.trip in trips && row.wagon in wagons by {
          assert d.trip.value in trips && d.wagon.value in wagons;
        }
        ghost var issued := t0 + Issue(reqs[..i + 1], first, o);
        AppendRow(row);
        assert tickets == issued;
      }
    }

    /** Writes one row whose seat is free, whose trip and wagon are stored
        and whose id is the next one. */
    method AppendRow(row: Ticket)
      requires Valid()
      requires !KeyTaken(tickets, KeyOf(row))
      requires row.trip in trips && row.wagon in wagons
      requires row.id == nextTicketId && row.order < nextOrderId
      modifies this
      ensures Valid()
      ensures tickets == old(tickets) + [row] && nextTicketId == old(nextTicketId) + 1
      ensures trips == old(trips) && wagons == old(wagons)
      ensures orders == old(orders) && nextOrderId == old(nextOrderId)
    {
      var ts := tickets + [row];
      forall i, j | 0 <= i < j < |ts|
        ensures KeyOf(ts[i]) != KeyOf(ts[j]) && ts[i].id < ts[j].id
      {
        if j == |tickets| {
          assert ts[i] == tickets[i];
        }
      }
      assert forall i :: 0 <= i < |tickets| ==> ts[i] == tickets[i];
      tickets := ts;
      nextTicketId := nextTicketId + 1;
    }
  }
}
