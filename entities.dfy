/**
 * The persisted records of the bus station (Facility, Bus, Trip, Order, Ticket), the
 * in-memory store that stands for the database, and the store invariant: foreign keys
 * resolve and primary keys are fresh (database rules), no two tickets of a trip share a
 * seat (the assumed unique constraint), and every seat lies within the capacity of the
 * trip's bus (the rule the ticket validation applies before any insert).
 */
module Entities {
  import opened Wrappers

  /** An amenity of a bus (Wifi, WC, ...). */
  datatype Facility = Facility(id: nat, name: string)

  /** A bus; `facilities` are the rows of the many-to-many relation, in relation order. */
  datatype Bus = Bus(id: nat, info: Option<string>, numSeats: int, facilities: seq<Facility>)

  /** A scheduled journey; `bus` is the id of the bus it runs on. */
  datatype Trip = Trip(id: nat, source: string, destination: string, departure: int, bus: nat)

  /** An order; `user` is the id of the user who placed it, `createdAt` the creation time. */
  datatype Order = Order(id: nat, createdAt: int, user: nat)

  /** One reserved seat of one trip, belonging to one order. */
  datatype Ticket = Ticket(id: nat, seat: int, trip: nat, order: nat)

  /**
   * The seat-range rule `Ticket.validate_seat(seat, num_seats)`. Its body is not part of
   * this model; the rule below, 1 <= seat <= num_seats, is an assumption.
   */
  predicate ValidSeat(seat: int, numSeats: int) {
    1 <= seat <= numSeats
  }

  /** The bus with the given primary key, if any (the first one when ids are not unique). */
  function FindBus(buses: seq<Bus>, id: nat): (r: Option<Bus>)
    ensures r.Some? ==> r.value in buses && r.value.id == id
    ensures r.None? <==> forall b :: b in buses ==> b.id != id
  {
    if buses == [] then None
    else if buses[0].id == id then Some(buses[0])
    else FindBus(buses[1..], id)
  }

  /** The trip with the given primary key, if any. */
  function FindTrip(trips: seq<Trip>, id: nat): (r: Option<Trip>)
    ensures r.Some? ==> r.value in trips && r.value.id == id
    ensures r.None? <==> forall t :: t in trips ==> t.id != id
  {
    if trips == [] then None
    else if trips[0].id == id then Some(trips[0])
    else FindTrip(trips[1..], id)
  }

  /** The database: catalogue (buses, trips), orders, tickets and the next primary keys. */
  datatype StoreState = StoreState(
    buses: seq<Bus>,
    trips: seq<Trip>,
    orders: seq<Order>,
    tickets: seq<Ticket>,
    nextOrderId: nat,
    nextTicketId: nat)

  /** Every trip's bus exists (the required foreign key Trip.bus). */
  predicate TripsResolve(trips: seq<Trip>, buses: seq<Bus>) {
    forall t :: t in trips ==> FindBus(buses, t.bus).Some?
  }

  /** The capacity of the bus that runs the given trip, if the trip exists. */
  function Capacity(trips: seq<Trip>, buses: seq<Bus>, tripId: nat): (r: Option<int>)
    requires TripsResolve(trips, buses)
    ensures r.None? <==> FindTrip(trips, tripId).None?
  {
    match FindTrip(trips, tripId)
    case None => None
    case Some(t) => Some(FindBus(buses, t.bus).value.numSeats)
  }

  /** The (trip, seat) pair is already held by some ticket. */
  predicate SeatTaken(tickets: seq<Ticket>, trip: nat, seat: int) {
    exists t :: t in tickets && t.trip == trip && t.seat == seat
  }

  /** No two tickets share a (trip, seat) pair: the unique-together rule on Ticket. */
  predicate SeatsUnique(tickets: seq<Ticket>) {
    forall i, j :: 0 <= i < j < |tickets| ==>
      tickets[i].trip != tickets[j].trip || tickets[i].seat != tickets[j].seat
  }

  /** The ticket's trip exists and its seat is within the capacity of the trip's bus. */
  predicate SeatFits(trips: seq<Trip>, buses: seq<Bus>, t: Ticket)
    requires TripsResolve(trips, buses)
  {
    Capacity(trips, buses, t.trip).Some? && ValidSeat(t.seat, Capacity(trips, buses, t.trip).value)
  }

  /** The tickets of one order (the reverse relation Order.tickets), in store order. */
  function TicketsOfOrder(tickets: seq<Ticket>, orderId: nat): (r: seq<Ticket>)
    ensures forall t :: t in r <==> t in tickets && t.order == orderId
  {
    if tickets == [] then []
    else (if tickets[0].order == orderId then [tickets[0]] else []) + TicketsOfOrder(tickets[1..], orderId)
  }

  lemma {:induction false} TicketsOfOrderAppend(a: seq<Ticket>, b: seq<Ticket>, orderId: nat)
    ensures TicketsOfOrder(a + b, orderId) == TicketsOfOrder(a, orderId) + TicketsOfOrder(b, orderId)
  {
    if a == [] {
      assert a + b == b;
    } else {
      assert (a + b)[0] == a[0] && (a + b)[1..] == a[1..] + b;
      TicketsOfOrderAppend(a[1..], b, orderId);
    }
  }

  predicate HasOrder(orders: seq<Order>, id: nat) {
    exists o :: o in orders && o.id == id
  }

  /** The store invariant: the database's key rules, the assumed unique constraint and the seat rule. */
  predicate StoreValid(s: StoreState) {
    && TripsResolve(s.trips, s.buses)
    && (forall o :: o in s.orders ==> o.id < s.nextOrderId)
    && (forall t :: t in s.tickets ==> t.id < s.nextTicketId)
    && (forall t :: t in s.tickets ==> HasOrder(s.orders, t.order))
    && (forall t :: t in s.tickets ==> SeatFits(s.trips, s.buses, t))
    && SeatsUnique(s.tickets)
  }
}
