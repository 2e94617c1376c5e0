/**
 * The querysets and hooks of the viewsets: the bus list with its `facilities` filter,
 * per-user order scoping, the trip queryset per action, the order page size, and how
 * `perform_create` binds a new order to the requesting user.
 */
module Viewsets {
  import opened Wrappers
  import opened SeqUtil
  import opened Entities
  import opened TicketValidation
  import opened OrderBooking
  import opened Projections
  import opened QueryParams

  // ---------------------------------------------------------------- BusViewSet

  /** The bus has at least one facility whose id is among `ids`. */
  predicate HasAnyFacility(b: Bus, ids: seq<int>) {
    exists f :: f in b.facilities && f.id in ids
  }

  /** The join rows of one bus: one copy of the bus per facility of `fs` whose id is in `ids`. */
  function BusRows(b: Bus, fs: seq<Facility>, ids: seq<int>): (r: seq<Bus>)
    ensures forall x :: x in r <==> x == b && exists f :: f in fs && f.id in ids
  {
    if fs == [] then []
    else (if fs[0].id in ids then [b] else []) + BusRows(b, fs[1..], ids)
  }

  /** `filter(facilities__id__in=ids)`: the rows of the bus-facility join whose facility matches. */
  function FacilityJoin(buses: seq<Bus>, ids: seq<int>): (r: seq<Bus>)
    ensures forall b :: b in r <==> b in buses && HasAnyFacility(b, ids)
  {
    if buses == [] then []
    else
      var head, rest := BusRows(buses[0], buses[0].facilities, ids), FacilityJoin(buses[1..], ids);
      assert buses == [buses[0]] + buses[1..];
      head + rest
  }

  /**
   * `BusViewSet.get_queryset`: with a non-empty `facilities` parameter, the buses having any
   * of the listed facility ids; otherwise all buses; `distinct()` in both cases. A piece of
   * the parameter that is not an integer raises (the Failure carries it).
   */
  function BusQueryset(buses: seq<Bus>, facilities: Option<string>): (r: Result<seq<Bus>, string>)
    ensures r.Success? ==> NoDuplicates(r.value)
    ensures r.Success? ==> forall b :: b in r.value ==> b in buses
  {
    if facilities.None? || facilities.value == "" then Success(Distinct(buses))
    else
      match ParamToInts(facilities.value)
      case Failure(piece) => Failure(piece)
      case Success(ids) => Success(Distinct(FacilityJoin(buses, ids)))
  }

  /** Filtering is OR over the ids: a bus is listed iff it has at least one of them. */
  lemma BusFilterIsAnyOf(buses: seq<Bus>, query: string, ids: seq<int>)
    requires query != "" && ParamToInts(query) == Success(ids)
    ensures BusQueryset(buses, Some(query)).Success?
    ensures forall b :: b in BusQueryset(buses, Some(query)).value <==> b in buses && HasAnyFacility(b, ids)
  {
  }

  /**
   * Without a `facilities` parameter, or with an empty one, nothing is parsed (the empty
   * string is not an integer literal) and every bus is listed, once.
   */
  lemma BusQuerysetWithoutFilter(buses: seq<Bus>)
    requires NoDuplicates(buses)
    ensures BusQueryset(buses, None) == Success(buses)
    ensures BusQueryset(buses, Some("")) == Success(buses)
    ensures ParamToInts("").Failure?
  {
    DistinctOfDistinct(buses);
    assert Split("") == [""];
    assert Strip("") == "";
  }

  /** A non-empty parameter with a piece that is not an integer literal makes the list fail. */
  lemma BusQuerysetRejectsBadParam(buses: seq<Bus>, query: string)
    requires query != "" && ParamToInts(query).Failure?
    ensures BusQueryset(buses, Some(query)) == Failure(ParamToInts(query).error)
  {
  }

  // ---------------------------------------------------------------- OrderViewSet

  /** `OrderViewSet.get_queryset`: the orders whose user is the requester (None: anonymous). */
  function OrderQueryset(orders: seq<Order>, requester: Option<nat>): (r: seq<Order>)
    ensures forall o :: o in r <==> o in orders && requester == Some(o.user)
    ensures |r| <= |orders|
  {
    if orders == [] then []
    else (if requester == Some(orders[0].user) then [orders[0]] else []) + OrderQueryset(orders[1..], requester)
  }

  lemma {:induction false} OrderQuerysetAppend(a: seq<Order>, b: seq<Order>, requester: Option<nat>)
    ensures OrderQueryset(a + b, requester) == OrderQueryset(a, requester) + OrderQueryset(b, requester)
  {
    if a == [] {
      assert a + b == b;
    } else {
      assert (a + b)[0] == a[0] && (a + b)[1..] == a[1..] + b;
      OrderQuerysetAppend(a[1..], b, requester);
    }
  }

  /** The page size of the order list when none is requested. */
  const PageSizeDefault: nat := 3
  /** The largest page size a caller can obtain. */
  const MaxPageSize: nat := 20

  /**
   * The page size of OrderSetPagination for the `page_size` query parameter: a positive
   * integer is honoured up to the maximum; an absent, non-integer or non-positive value
   * gives the default.
   */
  function PageSize(requested: Option<string>): (r: nat)
    ensures 1 <= r <= MaxPageSize
    ensures requested.None? ==> r == PageSizeDefault
    ensures requested.Some? && ParseInt(requested.value).Some? && ParseInt(requested.value).value > 0 ==>
              r == if ParseInt(requested.value).value < MaxPageSize then ParseInt(requested.value).value else MaxPageSize
    ensures requested.Some? && (ParseInt(requested.value).None? || ParseInt(requested.value).value <= 0) ==>
              r == PageSizeDefault
  {
    match requested
    case None => PageSizeDefault
    case Some(q) =>
      match ParseInt(q)
      case None => PageSizeDefault
      case Some(n) => if n <= 0 then PageSizeDefault else if n < MaxPageSize then n else MaxPageSize
  }

  /** Every requested page size is honoured exactly within 1..20, and it is cut to 20 above. */
  lemma PageSizeHonoursRequest(n: int)
    requires n >= 1 && WithinStrDigits(n)
    ensures PageSize(Some(IntToString(n))) == if n <= MaxPageSize then n else MaxPageSize
  {
    ParseIntOfString(n);
  }

  /** A page size led by an information separator is no integer, so the default applies. */
  lemma PageSizeRejectsInformationSeparator()
    ensures PageSize(Some("\U{1C}5")) == PageSizeDefault
  {
  }

  /** A page size of more than MaxStrDigits digits raises in `int()`, so the default applies. */
  lemma PageSizeRejectsOverlongLiteral(d: string)
    requires |d| > MaxStrDigits && forall k :: 0 <= k < |d| ==> IsDigit(d[k])
    ensures PageSize(Some(d)) == PageSizeDefault
  {
    ParseIntRejectsOverlongLiteral(d);
  }

  /** A facilities value of more than MaxStrDigits digits fails the bus listing. */
  lemma FacilityParamRejectsOverlongLiteral(d: string)
    requires |d| > MaxStrDigits && forall k :: 0 <= k < |d| ==> IsDigit(d[k])
    ensures ParamToInts(d).Failure?
  {
    ParseIntRejectsOverlongLiteral(d);
    SplitJoin([d]);
  }

  /** A facilities parameter led by an information separator fails the bus listing. */
  lemma FacilityParamRejectsInformationSeparator()
    ensures ParamToInts("\U{1C}1").Failure?
  {
  }

  /** The arguments `perform_create` passes to `serializer.save`. */
  datatype SaveCall = SaveCall(positional: seq<nat>, user: Option<nat>)

  /** What `save` makes of them. */
  datatype SaveFault = UnexpectedPositional | MissingUser

  /**
   * `serializer.save(**kwargs)` accepts keyword arguments only, and the order needs its
   * user from one of them.
   */
  function SaveOrderUser(call: SaveCall): (r: Result<nat, SaveFault>)
    ensures r.Success? <==> call.positional == [] && call.user.Some?
    ensures r.Success? ==> r.value == call.user.value
    ensures call.positional != [] ==> r == Failure(UnexpectedPositional)
  {
    if call.positional != [] then Failure(UnexpectedPositional)
    else if call.user.None? then Failure(MissingUser)
    else Success(call.user.value)
  }

  /** `serializer.save(self.request.user)` as written: the user is passed positionally. */
  function PerformCreateAsWritten(requester: nat): SaveCall {
    SaveCall([requester], None)
  }

  /** `serializer.save(user=self.request.user)`, as intended. */
  function PerformCreate(requester: nat): SaveCall {
    SaveCall([], Some(requester))
  }

  /** Why an order creation through the view fails. */
  datatype CreateFault = SaveFailed(fault: SaveFault) | BookingFailed(error: OrderError)

  /**
   * Order creation through the view, in the framework's order: the request is validated
   * first (`is_valid(raise_exception=True)` of the create action), only then does
   * `perform_create` call `save`, which binds the user, and the store books the order.
   */
  function CreateThroughView(call: SaveCall, s: StoreState, now: int, reqs: seq<TicketRequest>): (r: Result<Booked, CreateFault>)
    requires TripsResolve(s.trips, s.buses)
    ensures ValidateTickets(s, reqs).Failure? ==> r == Failure(BookingFailed(ValidateTickets(s, reqs).error))
    ensures ValidateTickets(s, reqs).Success? && SaveOrderUser(call).Failure? ==>
              r == Failure(SaveFailed(SaveOrderUser(call).error))
    ensures r.Success? ==> SaveOrderUser(call).Success? && r.value.order.user == SaveOrderUser(call).value
  {
    match ValidateTickets(s, reqs)
    case Failure(e) => Failure(BookingFailed(e))
    case Success(_) =>
      match SaveOrderUser(call)
      case Failure(f) => Failure(SaveFailed(f))
      case Success(user) =>
        match Book(s, user, now, reqs)
        case Failure(e) => Failure(BookingFailed(e))
        case Success(b) => Success(b)
  }

  /**
   * As written, a request that validates fails on the positional argument before reaching
   * the store; one that does not validate is answered with its validation error, since
   * `perform_create` is never called for it.
   */
  lemma PerformCreateAsWrittenFails(s: StoreState, requester: nat, now: int, reqs: seq<TicketRequest>)
    requires TripsResolve(s.trips, s.buses)
    ensures ValidateTickets(s, reqs).Success? ==>
              CreateThroughView(PerformCreateAsWritten(requester), s, now, reqs) == Failure(SaveFailed(UnexpectedPositional))
    ensures ValidateTickets(s, reqs).Failure? ==>
              CreateThroughView(PerformCreateAsWritten(requester), s, now, reqs) == Failure(BookingFailed(ValidateTickets(s, reqs).error))
    ensures CreateThroughView(PerformCreateAsWritten(requester), s, now, reqs).Failure?
  {
  }

  /** With the user passed by keyword, the view books exactly what the store books for the requester. */
  lemma PerformCreateBooksForRequester(s: StoreState, requester: nat, now: int, reqs: seq<TicketRequest>)
    requires TripsResolve(s.trips, s.buses)
    ensures Book(s, requester, now, reqs).Success? ==>
              CreateThroughView(PerformCreate(requester), s, now, reqs) == Success(Book(s, requester, now, reqs).value)
    ensures Book(s, requester, now, reqs).Failure? ==>
              CreateThroughView(PerformCreate(requester), s, now, reqs) == Failure(BookingFailed(Book(s, requester, now, reqs).error))
  {
  }

  /**
   * An order created through the view belongs to the requester: it is appended to the
   * requester's order list and every other requester's list is unchanged.
   */
  lemma CreatedOrderScopedToRequester(s: StoreState, requester: nat, now: int, reqs: seq<TicketRequest>, other: Option<nat>)
    requires TripsResolve(s.trips, s.buses)
    requires CreateThroughView(PerformCreate(requester), s, now, reqs).Success?
    ensures var b := CreateThroughView(PerformCreate(requester), s, now, reqs).value;
      && b.order.user == requester
      && OrderQueryset(b.state.orders, Some(requester)) == OrderQueryset(s.orders, Some(requester)) + [b.order]
      && (other != Some(requester) ==> OrderQueryset(b.state.orders, other) == OrderQueryset(s.orders, other))
  {
    BookSuccess(s, requester, now, reqs);
    var b := Book(s, requester, now, reqs).value;
    OrderQuerysetAppend(s.orders, [b.order], Some(requester));
    OrderQuerysetAppend(s.orders, [b.order], other);
    assert OrderQueryset([b.order], Some(requester)) == [b.order];
  }

  // ---------------------------------------------------------------- TripViewSet

  /** The trips are in ascending id order. */
  predicate SortedById(trips: seq<Trip>) {
    forall i, j :: 0 <= i < j < |trips| ==> trips[i].id <= trips[j].id
  }

  /** Every trip's id is at least `lo`. */
  predicate IdsAtLeast(trips: seq<Trip>, lo: nat) {
    forall k :: 0 <= k < |trips| ==> lo <= trips[k].id
  }

  /** Inserts `t` into an id-ordered sequence, before the first trip whose id is not smaller. */
  function InsertById(t: Trip, sorted: seq<Trip>): seq<Trip> {
    if sorted == [] then [t]
    else if t.id <= sorted[0].id then [t] + sorted
    else [sorted[0]] + InsertById(t, sorted[1..])
  }

  lemma {:induction false} InsertByIdSorted(t: Trip, sorted: seq<Trip>)
    requires SortedById(sorted)
    ensures SortedById(InsertById(t, sorted))
    ensures forall lo: nat :: lo <= t.id && IdsAtLeast(sorted, lo) ==> IdsAtLeast(InsertById(t, sorted), lo)
  {
    if sorted != [] && t.id > sorted[0].id {
      var rest := InsertById(t, sorted[1..]);
      InsertByIdSorted(t, sorted[1..]);
      assert sorted == [sorted[0]] + sorted[1..];
      assert IdsAtLeast(sorted[1..], sorted[0].id);
      assert IdsAtLeast(rest, sorted[0].id);
      var r := [sorted[0]] + rest;
      forall i, j | 0 <= i < j < |r| ensures r[i].id <= r[j].id {
        if i > 0 { assert r[i] == rest[i - 1] && r[j] == rest[j - 1]; } else { assert r[j] == rest[j - 1]; }
      }
      forall lo: nat | lo <= t.id && IdsAtLeast(sorted, lo) ensures IdsAtLeast(r, lo) {
        assert IdsAtLeast(sorted[1..], lo);
      }
    }
  }

  lemma {:induction false} InsertByIdPermutes(t: Trip, sorted: seq<Trip>)
    ensures multiset(InsertById(t, sorted)) == multiset(sorted) + multiset{t}
  {
    if sorted != [] && t.id > sorted[0].id {
      InsertByIdPermutes(t, sorted[1..]);
      assert sorted == [sorted[0]] + sorted[1..];
    }
  }

  /** `order_by("id")`, as an insertion sort. */
  function SortById(trips: seq<Trip>): seq<Trip> {
    if trips == [] then [] else InsertById(trips[0], SortById(trips[1..]))
  }

  /** `order_by("id")` gives the same trips, in ascending id order. */
  lemma {:induction false} SortByIdCorrect(trips: seq<Trip>)
    ensures SortedById(SortById(trips))
    ensures multiset(SortById(trips)) == multiset(trips)
  {
    if trips != [] {
      SortByIdCorrect(trips[1..]);
      InsertByIdSorted(trips[0], SortById(trips[1..]));
      InsertByIdPermutes(trips[0], SortById(trips[1..]));
      assert trips == [trips[0]] + trips[1..];
    }
  }

  /** The queryset of TripViewSet: plain trips, or trip-list rows with `tickets_available`. */
  datatype TripQuery = Plain(trips: seq<Trip>) | Annotated(rows: seq<TripRow>)

  /**
   * `TripViewSet.get_queryset` for an action: "retrieve" gives the trips as stored, "list"
   * the annotated rows, any other action the trips ordered by id.
   */
  function TripQueryset(action: string, trips: seq<Trip>, buses: seq<Bus>, tickets: seq<Ticket>): (r: TripQuery)
    requires TripsResolve(trips, buses)
    ensures action == "list" <==> r.Annotated?
    ensures r.Annotated? ==> |r.rows| == |trips|
    ensures r.Annotated? ==> forall i :: 0 <= i < |trips| ==>
              r.rows[i].ticketsAvailable == FindBus(buses, trips[i].bus).value.numSeats - |TakenSeats(tickets, trips[i].id)|
    ensures r.Plain? ==> multiset(r.trips) == multiset(trips)
    ensures action != "list" && action != "retrieve" ==> r.Plain? && SortedById(r.trips)
  {
    SortByIdCorrect(trips);
    if action == "retrieve" then Plain(trips)
    else if action == "list" then Annotated(TripList(trips, buses, tickets))
    else Plain(SortById(trips))
  }

  /** The number of requests of a batch on one trip. */
  function CountRequests(reqs: seq<TicketRequest>, tripId: nat): nat {
    if reqs == [] then 0
    else (if reqs[0].trip == tripId then 1 else 0) + CountRequests(reqs[1..], tripId)
  }

  lemma {:induction false} CountTicketsAppend(a: seq<Ticket>, b: seq<Ticket>, tripId: nat)
    ensures CountTickets(a + b, tripId) == CountTickets(a, tripId) + CountTickets(b, tripId)
  {
    if a == [] {
      assert a + b == b;
    } else {
      assert (a + b)[0] == a[0] && (a + b)[1..] == a[1..] + b;
      CountTicketsAppend(a[1..], b, tripId);
    }
  }

  lemma {:induction false} CountNewTickets(firstId: nat, orderId: nat, reqs: seq<TicketRequest>, tripId: nat)
    ensures CountTickets(NewTickets(firstId, orderId, reqs), tripId) == CountRequests(reqs, tripId)
    decreases |reqs|
  {
    if reqs != [] {
      CountNewTickets(firstId + 1, orderId, reqs[1..], tripId);
      assert NewTickets(firstId, orderId, reqs)[1..] == NewTickets(firstId + 1, orderId, reqs[1..]);
    }
  }

  /** After a booking, each trip's `tickets_available` drops by the number of its new tickets. */
  lemma BookingLowersAvailability(s: StoreState, user: nat, now: int, reqs: seq<TicketRequest>, tripId: nat, numSeats: int)
    requires TripsResolve(s.trips, s.buses)
    requires Book(s, user, now, reqs).Success?
    ensures TicketsAvailable(numSeats, Book(s, user, now, reqs).value.state.tickets, tripId)
         == TicketsAvailable(numSeats, s.tickets, tripId) - CountRequests(reqs, tripId)
  {
    BookSuccess(s, user, now, reqs);
    CountTicketsAppend(s.tickets, NewTickets(s.nextTicketId, s.nextOrderId, reqs), tripId);
    CountNewTickets(s.nextTicketId, s.nextOrderId, reqs, tripId);
  }
}
