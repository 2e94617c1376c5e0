/**
 * Validation of one ticket request of an order (TicketSerializer): the trip reference
 * must resolve, the (seat, trip) pair must not belong to a persisted ticket
 * (the unique-together validator), and the seat must pass the seat-range rule for the
 * trip's bus (the `validate` hook).
 */
module TicketValidation {
  import opened Wrappers
  import opened Entities

  /** The writable fields of a ticket in a booking request. */
  datatype TicketRequest = TicketRequest(seat: int, trip: nat)

  /** Why one ticket request was rejected. */
  datatype TicketError = TripNotFound | AlreadyTaken | OutOfRange

  /** What can go wrong when the hooks run as written. */
  datatype Fault = Rejected(reason: TicketError) | ValidateReturnedNone

  /** The request may be booked: its trip exists, its pair is free and its seat is in range. */
  predicate Bookable(s: StoreState, r: TicketRequest)
    requires TripsResolve(s.trips, s.buses)
  {
    && Capacity(s.trips, s.buses, r.trip).Some?
    && !SeatTaken(s.tickets, r.trip, r.seat)
    && ValidSeat(r.seat, Capacity(s.trips, s.buses, r.trip).value)
  }

  /**
   * The validations that run before the `validate` hook: the trip field resolves to a trip
   * (field validation), then the unique-together validator consults the persisted
   * tickets only. Yields the capacity of the trip's bus.
   */
  function Precheck(s: StoreState, r: TicketRequest): (res: Result<int, TicketError>)
    requires TripsResolve(s.trips, s.buses)
    ensures res.Success? ==> Capacity(s.trips, s.buses, r.trip) == Some(res.value)
    ensures res == Failure(TripNotFound) <==> FindTrip(s.trips, r.trip).None?
    ensures res == Failure(AlreadyTaken) <==>
              FindTrip(s.trips, r.trip).Some? && SeatTaken(s.tickets, r.trip, r.seat)
    ensures res != Failure(OutOfRange)
  {
    match Capacity(s.trips, s.buses, r.trip)
    case None => Failure(TripNotFound)
    case Some(n) => if SeatTaken(s.tickets, r.trip, r.seat) then Failure(AlreadyTaken) else Success(n)
  }

  /** The `validate` hook as written: it checks the seat range and then returns Python's None. */
  function ValidateAsWritten(r: TicketRequest, numSeats: int): Result<Option<TicketRequest>, TicketError> {
    if ValidSeat(r.seat, numSeats) then Success(None) else Failure(OutOfRange)
  }

  /** The `validate` hook as intended: it checks the seat range and passes the attributes on. */
  function Validate(r: TicketRequest, numSeats: int): Result<Option<TicketRequest>, TicketError> {
    if ValidSeat(r.seat, numSeats) then Success(Some(r)) else Failure(OutOfRange)
  }

  /**
   * Validation of one request as the code is written: the framework requires the
   * hook to return the validated data, so a None result is a fault.
   */
  function CheckTicketAsWritten(s: StoreState, r: TicketRequest): Result<TicketRequest, Fault>
    requires TripsResolve(s.trips, s.buses)
  {
    match Precheck(s, r)
    case Failure(e) => Failure(Rejected(e))
    case Success(n) =>
      match ValidateAsWritten(r, n)
      case Failure(e) => Failure(Rejected(e))
      case Success(None) => Failure(ValidateReturnedNone)
      case Success(Some(v)) => Success(v)
  }

  /** Validation of one request with the corrected hook. */
  function CheckTicket(s: StoreState, r: TicketRequest): (res: Result<TicketRequest, TicketError>)
    requires TripsResolve(s.trips, s.buses)
    ensures res.Success? <==> Bookable(s, r)
    ensures res.Success? ==> res.value == r
    ensures res == Failure(TripNotFound) <==> FindTrip(s.trips, r.trip).None?
    ensures res == Failure(AlreadyTaken) <==>
              FindTrip(s.trips, r.trip).Some? && SeatTaken(s.tickets, r.trip, r.seat)
    ensures res == Failure(OutOfRange) <==>
              && Capacity(s.trips, s.buses, r.trip).Some?
              && !SeatTaken(s.tickets, r.trip, r.seat)
              && !ValidSeat(r.seat, Capacity(s.trips, s.buses, r.trip).value)
  {
    match Precheck(s, r)
    case Failure(e) => Failure(e)
    case Success(n) =>
      match Validate(r, n)
      case Failure(e) => Failure(e)
      case Success(v) => Success(v.value)
  }

  /**
   * As written, no request ever passes validation: a request the intended rules accept
   * fails because the hook returns None, and every other request fails for the same
   * reason as under the intended rules.
   */
  lemma ValidateAsWrittenRejectsEverything(s: StoreState, r: TicketRequest)
    requires TripsResolve(s.trips, s.buses)
    ensures CheckTicketAsWritten(s, r).Failure?
    ensures Bookable(s, r) ==> CheckTicketAsWritten(s, r) == Failure(ValidateReturnedNone)
    ensures !Bookable(s, r) ==> CheckTicketAsWritten(s, r) == Failure(Rejected(CheckTicket(s, r).error))
  {
  }
}
