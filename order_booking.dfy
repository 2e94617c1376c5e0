/**
 * Order creation (OrderSerializer): validation of the nested ticket list, then, inside
 * one transaction, one Order insert followed by one Ticket insert per request in
 * submitted order. A storage-level unique (trip, seat) constraint is assumed: it rejects
 * an insert whose pair is already present, including one inserted earlier in the same
 * loop; any failure rolls the whole transaction back.
 */
module OrderBooking {
  import opened Wrappers
  import opened SeqUtil
  import opened Entities
  import opened TicketValidation

  /** Why an order was not created. */
  datatype OrderError =
    | NoTickets
    | InvalidTickets(errors: seq<Option<TicketError>>)
    | SeatConflict(seat: int, trip: nat)

  /** The store after a successful booking, and the order it created. */
  datatype Booked = Booked(state: StoreState, order: Order)

  function ErrorOf(r: Result<TicketRequest, TicketError>): Option<TicketError> {
    if r.Failure? then Some(r.error) else None
  }

  /** One entry per request, in order: the error of that request, or None when it is valid. */
  function TicketErrors(s: StoreState, reqs: seq<TicketRequest>): (es: seq<Option<TicketError>>)
    requires TripsResolve(s.trips, s.buses)
    ensures |es| == |reqs|
    ensures forall i :: 0 <= i < |reqs| ==> (es[i].None? <==> Bookable(s, reqs[i]))
    ensures forall i :: 0 <= i < |reqs| && es[i].Some? ==> CheckTicket(s, reqs[i]) == Failure(es[i].value)
  {
    seq(|reqs|, i requires 0 <= i < |reqs| => ErrorOf(CheckTicket(s, reqs[i])))
  }

  predicate AllBookable(s: StoreState, reqs: seq<TicketRequest>)
    requires TripsResolve(s.trips, s.buses)
  {
    forall i :: 0 <= i < |reqs| ==> Bookable(s, reqs[i])
  }

  /**
   * Validation of the nested `tickets` list: an empty list is refused; otherwise every
   * request is checked against the persisted store and all errors are reported together.
   */
  function ValidateTickets(s: StoreState, reqs: seq<TicketRequest>): (r: Result<seq<TicketRequest>, OrderError>)
    requires TripsResolve(s.trips, s.buses)
    ensures r.Success? <==> reqs != [] && AllBookable(s, reqs)
    ensures r.Success? ==> r.value == reqs
    ensures reqs == [] ==> r == Failure(NoTickets)
    ensures reqs != [] && !AllBookable(s, reqs) ==> r == Failure(InvalidTickets(TicketErrors(s, reqs)))
  {
    if reqs == [] then Failure(NoTickets)
    else
      var es := TicketErrors(s, reqs);
      if exists i :: 0 <= i < |es| && es[i].Some? then Failure(InvalidTickets(es)) else Success(reqs)
  }

  /** The tickets the loop inserts: ids from `firstId` on, in request order, all bound to the order. */
  function NewTickets(firstId: nat, orderId: nat, claims: seq<TicketRequest>): (r: seq<Ticket>)
    ensures |r| == |claims|
    ensures forall k :: 0 <= k < |claims| ==>
              r[k] == Ticket(firstId + k, claims[k].seat, claims[k].trip, orderId)
  {
    seq(|claims|, k requires 0 <= k < |claims| => Ticket(firstId + k, claims[k].seat, claims[k].trip, orderId))
  }

  /**
   * The ticket-creation loop: inserts the claims one at a time; the assumed unique constraint
   * fails the first claim whose (trip, seat) pair is already in the table.
   */
  function InsertAll(tickets: seq<Ticket>, nextId: nat, orderId: nat, claims: seq<TicketRequest>): (r: Result<seq<Ticket>, OrderError>)
    ensures r.Failure? ==> r.error.SeatConflict? && TicketRequest(r.error.seat, r.error.trip) in claims
    decreases |claims|
  {
    if claims == [] then Success(tickets)
    else if SeatTaken(tickets, claims[0].trip, claims[0].seat) then
      Failure(SeatConflict(claims[0].seat, claims[0].trip))
    else
      InsertAll(tickets + [Ticket(nextId, claims[0].seat, claims[0].trip, orderId)], nextId + 1, orderId, claims[1..])
  }

  /** On success the loop has appended exactly the new tickets, in request order. */
  lemma {:induction false} InsertAllAppends(tickets: seq<Ticket>, nextId: nat, orderId: nat, claims: seq<TicketRequest>, ts: seq<Ticket>)
    requires InsertAll(tickets, nextId, orderId, claims) == Success(ts)
    ensures ts == tickets + NewTickets(nextId, orderId, claims)
    decreases |claims|
  {
    if claims != [] {
      var t := Ticket(nextId, claims[0].seat, claims[0].trip, orderId);
      InsertAllAppends(tickets + [t], nextId + 1, orderId, claims[1..], ts);
      assert NewTickets(nextId, orderId, claims) == [t] + NewTickets(nextId + 1, orderId, claims[1..]);
    }
  }

  /** The loop succeeds iff no claim's pair is already taken and no two claims share a pair. */
  lemma {:induction false} InsertAllSucceedsIff(tickets: seq<Ticket>, nextId: nat, orderId: nat, claims: seq<TicketRequest>)
    ensures InsertAll(tickets, nextId, orderId, claims).Success? <==>
              (forall k :: 0 <= k < |claims| ==> !SeatTaken(tickets, claims[k].trip, claims[k].seat))
              && NoDuplicates(claims)
    decreases |claims|
  {
    if claims != [] {
      var c, rest := claims[0], claims[1..];
      var t := Ticket(nextId, c.seat, c.trip, orderId);
      var after := tickets + [t];
      InsertAllSucceedsIff(after, nextId + 1, orderId, rest);
      forall x: TicketRequest
        ensures SeatTaken(after, x.trip, x.seat) <==> SeatTaken(tickets, x.trip, x.seat) || x == c
      {
        if x == c { assert t in after; }
        if SeatTaken(after, x.trip, x.seat) && !SeatTaken(tickets, x.trip, x.seat) {
          var w :| w in after && w.trip == x.trip && w.seat == x.seat;
          assert w !in tickets;
        }
      }
      assert NoDuplicates(claims) <==> NoDuplicates(rest) && c !in rest by {
        if NoDuplicates(rest) && c !in rest {
          forall i, j | 0 <= i < j < |claims| ensures claims[i] != claims[j] {
            if i == 0 { assert claims[j] == rest[j - 1]; } else { assert claims[i] == rest[i - 1] && claims[j] == rest[j - 1]; }
          }
        }
        if NoDuplicates(claims) {
          forall i, j | 0 <= i < j < |rest| ensures rest[i] != rest[j] {
            assert rest[i] == claims[i + 1] && rest[j] == claims[j + 1];
          }
        }
      }
      if !SeatTaken(tickets, c.trip, c.seat) {
        assert (forall k :: 0 <= k < |claims| ==> !SeatTaken(tickets, claims[k].trip, claims[k].seat)) <==>
               (forall k :: 0 <= k < |rest| ==> !SeatTaken(tickets, rest[k].trip, rest[k].seat)) by {
          forall k | 0 <= k < |rest| ensures rest[k] == claims[k + 1] { }
        }
      }
    }
  }

  /** Appending tickets whose pairs are free and pairwise distinct keeps every pair unique. */
  lemma AppendKeepsSeatsUnique(tickets: seq<Ticket>, added: seq<Ticket>)
    requires SeatsUnique(tickets) && SeatsUnique(added)
    requires forall k :: 0 <= k < |added| ==> !SeatTaken(tickets, added[k].trip, added[k].seat)
    ensures SeatsUnique(tickets + added)
  {
    var all := tickets + added;
    forall i, j | 0 <= i < j < |all| ensures all[i].trip != all[j].trip || all[i].seat != all[j].seat {
      if j >= |tickets| {
        if i < |tickets| {
          assert all[i] in tickets;
          assert all[j] == added[j - |tickets|];
        } else {
          assert all[i] == added[i - |tickets|] && all[j] == added[j - |tickets|];
        }
      }
    }
  }

  /**
   * The whole of order creation on the store: validation against the persisted tickets,
   * then the Order insert and the ticket loop. A failure yields no new state at all.
   */
  function Book(s: StoreState, user: nat, now: int, reqs: seq<TicketRequest>): (r: Result<Booked, OrderError>)
    requires TripsResolve(s.trips, s.buses)
    ensures ValidateTickets(s, reqs).Failure? ==> r == Failure(ValidateTickets(s, reqs).error)
    ensures r.Failure? && ValidateTickets(s, reqs).Success? ==> r.error.SeatConflict?
    ensures r.Success? ==>
              && r.value.order == Order(s.nextOrderId, now, user)
              && r.value.state.orders == s.orders + [r.value.order]
              && r.value.state.buses == s.buses && r.value.state.trips == s.trips
  {
    match ValidateTickets(s, reqs)
    case Failure(e) => Failure(e)
    case Success(claims) =>
      var order := Order(s.nextOrderId, now, user);
      match InsertAll(s.tickets, s.nextTicketId, order.id, claims)
      case Failure(e) => Failure(e)
      case Success(ts) =>
        Success(Booked(
          s.(orders := s.orders + [order], tickets := ts,
             nextOrderId := s.nextOrderId + 1, nextTicketId := s.nextTicketId + |claims|),
          order))
  }

  /**
   * A successful booking adds exactly one order, owned by the user and stamped with the
   * creation time, and appends exactly the requested tickets in submitted order, each bound
   * to that order; the catalogue and every earlier order and ticket stay as they were.
   */
  lemma BookSuccess(s: StoreState, user: nat, now: int, reqs: seq<TicketRequest>)
    requires TripsResolve(s.trips, s.buses)
    requires Book(s, user, now, reqs).Success?
    ensures var b := Book(s, user, now, reqs).value;
      && b.order == Order(s.nextOrderId, now, user)
      && b.state == s.(orders := s.orders + [b.order],
                       tickets := s.tickets + NewTickets(s.nextTicketId, b.order.id, reqs),
                       nextOrderId := s.nextOrderId + 1,
                       nextTicketId := s.nextTicketId + |reqs|)
  {
    InsertAllAppends(s.tickets, s.nextTicketId, s.nextOrderId, reqs, InsertAll(s.tickets, s.nextTicketId, s.nextOrderId, reqs).value);
  }

  /**
   * An order is created iff the list is non-empty, every request passes validation against
   * the persisted tickets, and no two requests name the same (seat, trip) pair.
   */
  lemma BookSucceedsIff(s: StoreState, user: nat, now: int, reqs: seq<TicketRequest>)
    requires TripsResolve(s.trips, s.buses)
    ensures Book(s, user, now, reqs).Success? <==> reqs != [] && AllBookable(s, reqs) && NoDuplicates(reqs)
  {
    InsertAllSucceedsIff(s.tickets, s.nextTicketId, s.nextOrderId, reqs);
  }

  /** A request whose pair already belongs to a persisted ticket rejects the whole order. */
  lemma BookRejectsTakenSeat(s: StoreState, user: nat, now: int, reqs: seq<TicketRequest>, i: nat)
    requires TripsResolve(s.trips, s.buses)
    requires i < |reqs| && FindTrip(s.trips, reqs[i].trip).Some?
    requires SeatTaken(s.tickets, reqs[i].trip, reqs[i].seat)
    ensures Book(s, user, now, reqs) == Failure(InvalidTickets(TicketErrors(s, reqs)))
    ensures TicketErrors(s, reqs)[i] == Some(AlreadyTaken)
  {
    assert !Bookable(s, reqs[i]);
  }

  /** A request whose seat fails the range rule for the trip's bus rejects the whole order. */
  lemma BookRejectsOutOfRange(s: StoreState, user: nat, now: int, reqs: seq<TicketRequest>, i: nat)
    requires TripsResolve(s.trips, s.buses)
    requires i < |reqs| && Capacity(s.trips, s.buses, reqs[i].trip).Some?
    requires !SeatTaken(s.tickets, reqs[i].trip, reqs[i].seat)
    requires !ValidSeat(reqs[i].seat, Capacity(s.trips, s.buses, reqs[i].trip).value)
    ensures Book(s, user, now, reqs) == Failure(InvalidTickets(TicketErrors(s, reqs)))
    ensures TicketErrors(s, reqs)[i] == Some(OutOfRange)
  {
    assert !Bookable(s, reqs[i]);
  }

  /**
   * Two identical requests in one batch both pass validation, which looks only at persisted
   * tickets; it is the assumed storage constraint inside the transaction that rejects the order.
   */
  lemma BookRejectsInBatchDuplicate(s: StoreState, user: nat, now: int, reqs: seq<TicketRequest>, i: nat, j: nat)
    requires TripsResolve(s.trips, s.buses)
    requires AllBookable(s, reqs)
    requires i < j < |reqs| && reqs[i] == reqs[j]
    ensures ValidateTickets(s, reqs) == Success(reqs)
    ensures Book(s, user, now, reqs).Failure? && Book(s, user, now, reqs).error.SeatConflict?
  {
    InsertAllSucceedsIff(s.tickets, s.nextTicketId, s.nextOrderId, reqs);
  }

  /** A successful booking keeps every integrity rule of the store. */
  lemma BookPreservesValid(s: StoreState, user: nat, now: int, reqs: seq<TicketRequest>)
    requires StoreValid(s)
    requires Book(s, user, now, reqs).Success?
    ensures StoreValid(Book(s, user, now, reqs).value.state)
  {
    BookSuccess(s, user, now, reqs);
    BookSucceedsIff(s, user, now, reqs);
    var b := Book(s, user, now, reqs).value;
    var added := NewTickets(s.nextTicketId, b.order.id, reqs);
    assert b.state.tickets == s.tickets + added;
    forall t | t in added ensures HasOrder(b.state.orders, t.order) && SeatFits(s.trips, s.buses, t) && t.id < b.state.nextTicketId {
      var k :| 0 <= k < |added| && added[k] == t;
      assert Bookable(s, reqs[k]);
      assert b.order in b.state.orders;
    }
    forall t | t in s.tickets ensures HasOrder(b.state.orders, t.order) {
      var o :| o in s.orders && o.id == t.order;
      assert o in b.state.orders;
    }
    assert SeatsUnique(added) by {
      forall i, j | 0 <= i < j < |added| ensures added[i].trip != added[j].trip || added[i].seat != added[j].seat {
        assert reqs[i] != reqs[j];
      }
    }
    forall k | 0 <= k < |added| ensures !SeatTaken(s.tickets, added[k].trip, added[k].seat) {
      assert Bookable(s, reqs[k]);
    }
    AppendKeepsSeatsUnique(s.tickets, added);
  }

  /**
   * A transaction whose ticket loop completed commits: the booking succeeds with the
   * order and tickets the loop wrote, and the store stays valid.
   */
  lemma BookCommits(s: StoreState, user: nat, now: int, reqs: seq<TicketRequest>, ts: seq<Ticket>)
    requires StoreValid(s)
    requires ValidateTickets(s, reqs).Success?
    requires InsertAll(s.tickets, s.nextTicketId, s.nextOrderId, reqs) == Success(ts)
    ensures Book(s, user, now, reqs) == Success(Booked(
              s.(orders := s.orders + [Order(s.nextOrderId, now, user)], tickets := ts,
                 nextOrderId := s.nextOrderId + 1, nextTicketId := s.nextTicketId + |reqs|),
              Order(s.nextOrderId, now, user)))
    ensures ts == s.tickets + NewTickets(s.nextTicketId, s.nextOrderId, reqs)
    ensures StoreValid(Book(s, user, now, reqs).value.state)
  {
    BookSuccess(s, user, now, reqs);
    BookPreservesValid(s, user, now, reqs);
  }

  /** On a valid store, the new order's tickets are exactly the new tickets, in request order. */
  lemma BookOrderOwnsNewTickets(s: StoreState, user: nat, now: int, reqs: seq<TicketRequest>)
    requires StoreValid(s)
    requires Book(s, user, now, reqs).Success?
    ensures var b := Book(s, user, now, reqs).value;
      && (forall o :: o in s.orders ==> o.id != b.order.id)
      && TicketsOfOrder(b.state.tickets, b.order.id) == NewTickets(s.nextTicketId, b.order.id, reqs)
  {
    BookSuccess(s, user, now, reqs);
    var b := Book(s, user, now, reqs).value;
    var added := NewTickets(s.nextTicketId, b.order.id, reqs);
    TicketsOfOrderAppend(s.tickets, added, b.order.id);
    NoTicketOfUnknownOrder(s.tickets, s.orders, b.order.id);
    AllTicketsOfOrder(added, b.order.id);
  }

  lemma {:induction false} NoTicketOfUnknownOrder(tickets: seq<Ticket>, orders: seq<Order>, id: nat)
    requires forall t :: t in tickets ==> HasOrder(orders, t.order)
    requires forall o :: o in orders ==> o.id != id
    ensures TicketsOfOrder(tickets, id) == []
  {
    if tickets != [] {
      assert tickets[0] in tickets;
      NoTicketOfUnknownOrder(tickets[1..], orders, id);
    }
  }

  lemma {:induction false} AllTicketsOfOrder(tickets: seq<Ticket>, id: nat)
    requires forall k :: 0 <= k < |tickets| ==> tickets[k].order == id
    ensures TicketsOfOrder(tickets, id) == tickets
  {
    if tickets != [] {
      AllTicketsOfOrder(tickets[1..], id);
      assert tickets == [tickets[0]] + tickets[1..];
    }
  }

  /** The database seen through OrderSerializer.create: one store updated in place. */
  class OrderStore {
    var buses: seq<Bus>
    var trips: seq<Trip>
    var orders: seq<Order>
    var tickets: seq<Ticket>
    var nextOrderId: nat
    var nextTicketId: nat

    function State(): StoreState
      reads this
    {
      StoreState(buses, trips, orders, tickets, nextOrderId, nextTicketId)
    }

    ghost predicate Valid()
      reads this
    {
      StoreValid(State())
    }

    /** An empty order book over a catalogue whose trips all reference existing buses. */
    constructor (buses: seq<Bus>, trips: seq<Trip>)
      requires TripsResolve(trips, buses)
      ensures Valid()
      ensures State() == StoreState(buses, trips, [], [], 1, 1)
    {
      this.buses := buses;
      this.trips := trips;
      orders := [];
      tickets := [];
      nextOrderId := 1;
      nextTicketId := 1;
    }

    /**
     * The ticket loop of OrderSerializer.create: one insert per claim, in order, each
     * subject to the assumed unique (trip, seat) constraint; stops at the first rejected insert.
     */
    method InsertTickets(orderId: nat, claims: seq<TicketRequest>) returns (r: Result<seq<Ticket>, OrderError>)
      modifies this`tickets, this`nextTicketId
      ensures r == InsertAll(old(tickets), old(nextTicketId), orderId, claims)
      ensures r.Success? ==> tickets == r.value && nextTicketId == old(nextTicketId) + |claims|
    {
      var i := 0;
      while i < |claims|
        invariant 0 <= i <= |claims|
        invariant nextTicketId == old(nextTicketId) + i
        invariant InsertAll(old(tickets), old(nextTicketId), orderId, claims)
               == InsertAll(tickets, nextTicketId, orderId, claims[i..])
      {
        var c := claims[i];
        assert claims[i..][1..] == claims[i + 1..];
        if SeatTaken(tickets, c.trip, c.seat) {
          return Failure(SeatConflict(c.seat, c.trip));
        }
        tickets := tickets + [Ticket(nextTicketId, c.seat, c.trip, orderId)];
        nextTicketId := nextTicketId + 1;
        i := i + 1;
      }
      assert claims[|claims|..] == [];
      r := Success(tickets);
    }

    /**
     * OrderSerializer.create for `user` at time `now`: all or nothing. On failure the store
     * is exactly as before; on success it holds one new order and the requested tickets.
     */
    method CreateOrder(user: nat, now: int, requests: seq<TicketRequest>) returns (r: Result<Order, OrderError>)
      requires Valid()
      modifies this
      ensures Valid()
      ensures r.Failure? ==> State() == old(State())
      ensures r.Success? ==>
                && r.value == Order(old(nextOrderId), now, user)
                && orders == old(orders) + [r.value]
                && tickets == old(tickets) + NewTickets(old(nextTicketId), r.value.id, requests)
                && buses == old(buses) && trips == old(trips)
      ensures match Book(old(State()), user, now, requests)
              case Success(b) => r == Success(b.order) && State() == b.state
              case Failure(e) => r == Failure(e)
    {
      ghost var before := State();
      var validated := ValidateTickets(State(), requests);
      if validated.Failure? {
        return Failure(validated.error);
      }
      var order := Order(nextOrderId, now, user);
      var committed := Atomically(order, validated.value);
      if committed.Failure? {
        return Failure(committed.error);
      }
      r := Success(order);
      BookCommits(before, user, now, requests, committed.value);
    }

    /**
     * The `transaction.atomic()` block: the order insert, then the ticket loop; a
     * rejected ticket rolls every write of the block back.
     */
    method Atomically(order: Order, claims: seq<TicketRequest>) returns (r: Result<seq<Ticket>, OrderError>)
      requires order.id == nextOrderId
      modifies this
      ensures r == InsertAll(old(tickets), old(nextTicketId), order.id, claims)
      ensures r.Failure? ==> State() == old(State())
      ensures r.Success? ==> State() == old(State()).(orders := old(orders) + [order], tickets := r.value,
                                nextOrderId := old(nextOrderId) + 1, nextTicketId := old(nextTicketId) + |claims|)
    {
      var savedOrders, savedTickets, savedNextOrderId, savedNextTicketId := orders, tickets, nextOrderId, nextTicketId;
      orders := orders + [order];
      nextOrderId := nextOrderId + 1;
      r := InsertTickets(order.id, claims);
      if r.Failure? {
        orders, tickets, nextOrderId, nextTicketId := savedOrders, savedTickets, savedNextOrderId, savedNextTicketId;
      }
    }
  }
}
