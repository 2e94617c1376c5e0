/**
 * Concrete booking, filtering, permission and scoping cases, stated on small stores.
 */
module Scenarios {
  import opened Wrappers
  import opened Entities
  import opened TicketValidation
  import opened OrderBooking
  import opened Projections
  import opened QueryParams
  import opened Viewsets
  import opened Permissions

  /** A trip (id 1) on a two-seat bus (id 1) whose seat 1 is already sold to order 1 of user 7. */
  function TwoSeatStore(): StoreState {
    StoreState([Bus(1, Some("AA 0000 BB"), 2, [])], [Trip(1, "Kyiv", "Lviv", 0, 1)],
               [Order(1, 0, 7)], [Ticket(1, 1, 1, 1)], 2, 2)
  }

  /** On the two-seat bus: seat 1 is taken, seat 3 is out of range, seat 2 fills the bus. */
  lemma TwoSeatBusOrders()
    ensures Book(TwoSeatStore(), 8, 10, [TicketRequest(1, 1)]) == Failure(InvalidTickets([Some(AlreadyTaken)]))
    ensures Book(TwoSeatStore(), 8, 10, [TicketRequest(3, 1)]) == Failure(InvalidTickets([Some(OutOfRange)]))
    ensures Book(TwoSeatStore(), 8, 10, [TicketRequest(2, 1)]).Success?
    ensures TicketsAvailable(2, Book(TwoSeatStore(), 8, 10, [TicketRequest(2, 1)]).value.state.tickets, 1) == 0
  {
    var s := TwoSeatStore();
    assert SeatTaken(s.tickets, 1, 1);
    assert !SeatTaken(s.tickets, 1, 2) by {
      assert s.tickets == [Ticket(1, 1, 1, 1)];
    }
    assert CheckTicket(s, TicketRequest(1, 1)) == Failure(AlreadyTaken);
    assert CheckTicket(s, TicketRequest(3, 1)) == Failure(OutOfRange);
    var taken, outside := TicketErrors(s, [TicketRequest(1, 1)]), TicketErrors(s, [TicketRequest(3, 1)]);
    assert taken[0] == Some(AlreadyTaken) && taken == [taken[0]];
    assert outside[0] == Some(OutOfRange) && outside == [outside[0]];
    assert CheckTicket(s, TicketRequest(2, 1)) == Success(TicketRequest(2, 1));
    BookSucceedsIff(s, 8, 10, [TicketRequest(2, 1)]);
    BookSuccess(s, 8, 10, [TicketRequest(2, 1)]);
    var after := Book(s, 8, 10, [TicketRequest(2, 1)]).value.state.tickets;
    assert after == [Ticket(1, 1, 1, 1), Ticket(2, 2, 1, 2)];
  }

  /** A 50-seat bus with one trip and no tickets yet. */
  function EmptyStore(): StoreState {
    StoreState([Bus(1, None, 50, [])], [Trip(1, "Kyiv", "Lviv", 0, 1)], [], [], 1, 1)
  }

  /**
   * The same seat twice in one batch passes validation, which looks only at persisted
   * tickets, and the whole order is then refused by the assumed (trip, seat) uniqueness of storage.
   */
  lemma DuplicateSeatInOneBatch()
    ensures ValidateTickets(EmptyStore(), [TicketRequest(1, 1), TicketRequest(1, 1)]).Success?
    ensures Book(EmptyStore(), 8, 10, [TicketRequest(1, 1), TicketRequest(1, 1)]) == Failure(SeatConflict(1, 1))
  {
    var s := EmptyStore();
    var reqs := [TicketRequest(1, 1), TicketRequest(1, 1)];
    assert CheckTicket(s, reqs[0]).Success?;
    BookRejectsInBatchDuplicate(s, 8, 10, reqs, 0, 1);
    assert reqs[1..] == [TicketRequest(1, 1)];
    assert SeatTaken([Ticket(1, 1, 1, 1)], 1, 1);
    assert InsertAll(s.tickets, 1, 1, reqs) == InsertAll([Ticket(1, 1, 1, 1)], 2, 1, reqs[1..]);
  }

  /** Three buses: without facilities, with facility 1 only, with facility 2 only. */
  function FacilityBuses(): seq<Bus> {
    [Bus(1, Some("AA 0000 BB"), 50, []),
     Bus(2, Some("AA 0001 BB"), 50, [Facility(1, "Wifi")]),
     Bus(3, Some("AA 0002 BB"), 50, [Facility(2, "WC")])]
  }

  /** The facilities value "1,2" is read as the ids 1 and 2. */
  lemma FacilityIdsOneTwo()
    ensures ParamToInts("1,2") == Success([1, 2])
  {
    var p2 := ["1", "2"];
    assert p2[1..] == ["2"];
    assert Join(p2) == "1,2";
    assert NatToString(1) == "1" && NatToString(2) == "2";
    var xs := [1, 2];
    assert seq(2, k requires 0 <= k < 2 => IntToString(xs[k])) == p2;
    ParamToIntsOfJoin(xs);
  }

  /** `?facilities=1,2` lists the two buses with a facility and not the one without. */
  lemma FilterBusesByFacilities()
    ensures BusQueryset(FacilityBuses(), Some("1,2")).Success?
    ensures FacilityBuses()[1] in BusQueryset(FacilityBuses(), Some("1,2")).value
    ensures FacilityBuses()[2] in BusQueryset(FacilityBuses(), Some("1,2")).value
    ensures FacilityBuses()[0] !in BusQueryset(FacilityBuses(), Some("1,2")).value
  {
    FacilityIdsOneTwo();
    var bs := FacilityBuses();
    BusFilterIsAnyOf(bs, "1,2", [1, 2]);
    assert HasAnyFacility(bs[1], [1, 2]) by { assert bs[1].facilities[0] in bs[1].facilities; }
    assert HasAnyFacility(bs[2], [1, 2]) by { assert bs[2].facilities[0] in bs[2].facilities; }
  }

  /** A reader may list buses but not create one; a staff user may do both. */
  lemma ReaderAndStaffOnBuses()
    ensures HasPermission("GET", Some(User(true, false)))
    ensures !HasPermission("POST", Some(User(true, false)))
    ensures HasPermission("POST", Some(User(true, true)))
    ensures !HasPermission("GET", Some(Anonymous))
  {
    WriteMethodsAreUnsafe();
  }

  /** User 7 books on the empty store; user 8's order list stays empty. */
  lemma OrdersScopedPerUser()
    ensures CreateThroughView(PerformCreate(7), EmptyStore(), 10, [TicketRequest(1, 1)]).Success?
    ensures var b := CreateThroughView(PerformCreate(7), EmptyStore(), 10, [TicketRequest(1, 1)]).value;
      && OrderQueryset(b.state.orders, Some(7)) == [b.order]
      && OrderQueryset(b.state.orders, Some(8)) == []
  {
    var s := EmptyStore();
    assert CheckTicket(s, TicketRequest(1, 1)).Success?;
    BookSucceedsIff(s, 7, 10, [TicketRequest(1, 1)]);
    CreatedOrderScopedToRequester(s, 7, 10, [TicketRequest(1, 1)], Some(8));
  }
}
