# Bus ticket booking, modelled in Dafny

This project models the booking core of a Django REST bus-ticket service. The service manages
buses, facilities, trips, orders and the seat tickets an order holds. The model covers:

- **Ticket validation** (`TicketSerializer`). For each requested ticket, in the framework's order:
  the trip reference must resolve, the (seat, trip) pair must not belong to a persisted ticket
  (the unique-together validator), and the seat must lie in `1..num_seats` of the trip's bus
  (the `validate` hook).
- **Order creation** (`OrderSerializer.create`). All requests of the nested list are validated
  first, with errors collected per item. An empty list is refused. Inside one atomic transaction
  the order is created, then one ticket per request. A storage-level unique (trip, seat)
  constraint is assumed: it refuses a ticket whose pair is already present, and the whole
  transaction rolls back.
  This carries two parts:
  - a specification function, `OrderBooking.Book`, with its lemmas;
  - a class, `OrderBooking.OrderStore`, whose `CreateOrder` method mutates the store step by step
    and is proved equal to `Book`.
- **Read side**:
  - `_param_to_ints`, with the Python `str.split(",")` and `int()` it relies on;
  - the bus `facilities` filter, with `distinct()`;
  - per-user order scoping;
  - the trip queryset per action, including `tickets_available`;
  - `taken_seats` and the bus list/detail projections;
  - the order page size (3 by default, at most 20).
- **Permission** `IsAdminAllOrAuthenticatedReadOnly`, and `IsAdminUser` on `upload-image`.
- **Two defects** in the code as written (see Findings). Each is modelled as written and as
  corrected; the rest of the model uses the corrected behaviour.

Modules:

| module | role |
|---|---|
| `Wrappers` | `Option` and `Result` |
| `SeqUtil` | order-preserving `Distinct` |
| `Entities` | records and the store invariant `StoreValid` |
| `TicketValidation` | ticket checks |
| `OrderBooking` | order creation |
| `Projections` | `taken_seats`, `tickets_available`, projections |
| `QueryParams` | query-string parsing |
| `Viewsets` | querysets and view hooks |
| `Permissions` | permission checks |
| `Scenarios` | concrete cases |

Behaviour of the code that the model keeps as it is:

- Validation of a request looks only at persisted tickets, and all requests are validated
  before anything is written. So two requests for the same seat in one batch both pass
  validation. The storage constraint then refuses the order
  (`OrderBooking.BookRejectsInBatchDuplicate`).
- A storage-level conflict is not caught and turned into an "already taken" error. The model
  reports it as a distinct `SeatConflict` error of the whole order.
- The create action validates the request before `perform_create` calls `save`. So a request
  that fails validation is answered with its validation error, whatever `save` would do.
- Anonymous users are denied by the permission class itself, because an anonymous user object
  is neither authenticated nor staff.

## Model

| member | source | states |
|---|---|---|
| Entities.ValidSeat | station/serializers.py:50-54 | the seat-range rule the `validate` hook applies: a seat is valid iff it lies in 1..num_seats; `TicketValidation.CheckTicket` reports OutOfRange exactly when the trip resolves, the (seat, trip) pair is free and the rule fails |
| Entities.FindTrip | station/serializers.py:40 | the `trip` primary key resolves to a trip with that id exactly when one exists |
| Entities.Capacity | station/serializers.py:52 | the capacity looked up for a request (its bus's `num_seats`) is absent exactly when the trip is missing |
| TicketValidation.Precheck | station/serializers.py:40-47 | the validations before `validate`: a missing trip iff TripNotFound; the pair persisted iff AlreadyTaken; never OutOfRange; success yields the trip's capacity |
| TicketValidation.CheckTicket | station/serializers.py:34-54 | corrected per-ticket validation: success iff the trip exists, the pair is free and the seat is in range; each error iff its own condition; success passes the request on unchanged |
| TicketValidation.ValidateAsWritten | station/serializers.py:49-54 | the hook as written: OutOfRange on a bad seat, otherwise None instead of the attributes; `TicketValidation.ValidateAsWrittenRejectsEverything` states what this does to every request |
| TicketValidation.Validate | station/serializers.py:49-54 | the hook as intended: OutOfRange on a bad seat, otherwise the attributes unchanged; `TicketValidation.CheckTicket` states its effect |
| TicketValidation.CheckTicketAsWritten | station/serializers.py:34-54 | per-ticket validation with the hook as written; `TicketValidation.ValidateAsWrittenRejectsEverything` proves it never succeeds |
| TicketValidation.ValidateAsWrittenRejectsEverything | station/serializers.py:49-54 | as written, no ticket ever validates: a bookable request fails because `validate` returns None, and every other request fails with its corrected error |
| OrderBooking.TicketErrors | station/serializers.py:58 | one entry per request, in order; None iff that request is bookable, otherwise its error |
| OrderBooking.ValidateTickets | station/serializers.py:58 | the nested list validates iff it is non-empty and every item is bookable; empty gives NoTickets; otherwise all per-item errors are reported |
| OrderBooking.NewTickets | station/serializers.py:72-73 | the k-th created ticket has id firstId+k, the k-th requested seat and trip, and the new order |
| OrderBooking.InsertAll | station/serializers.py:72-73 | a failing insert is a SeatConflict on a pair that was requested |
| OrderBooking.InsertAllAppends | station/serializers.py:72-73 | a completed loop has appended exactly the new tickets, in request order |
| OrderBooking.InsertAllSucceedsIff | station/serializers.py:72-73 | the loop completes iff no requested pair is persisted and no two requests share a pair |
| OrderBooking.Book | station/serializers.py:58-74 | the booking: validation errors are returned as they are; after validation only a SeatConflict can fail it; a success appends exactly one order (next id, creation time, user) and keeps the catalogue; `BookSuccess`, `BookSucceedsIff` and `BookPreservesValid` state the rest |
| OrderBooking.BookSuccess | station/serializers.py:68-74 | a success adds one order (next id, creation time, user) and exactly the requested tickets bound to it; catalogue and earlier records unchanged |
| OrderBooking.BookSucceedsIff | station/serializers.py:58-74 | an order is created iff the list is non-empty, every request is bookable against the store, and the requests are pairwise distinct |
| OrderBooking.BookRejectsTakenSeat | station/serializers.py:42-47 | a request for a persisted pair makes the whole order fail with AlreadyTaken at its position |
| OrderBooking.BookRejectsOutOfRange | station/serializers.py:49-54 | a request for a seat outside the bus makes the whole order fail with OutOfRange at its position |
| OrderBooking.BookRejectsInBatchDuplicate | station/serializers.py:68-74 | two equal requests in one batch pass validation but the order fails with a SeatConflict |
| OrderBooking.BookPreservesValid | station/serializers.py:68-74 | a booking keeps the store invariant: seats in range, (trip, seat) unique, tickets owned by existing orders, fresh ids |
| OrderBooking.BookCommits | station/serializers.py:69-74 | a transaction whose ticket loop completed commits exactly the order and tickets it wrote, and the store stays valid |
| OrderBooking.BookOrderOwnsNewTickets | station/serializers.py:71-73 | the new order's id is fresh and its tickets are exactly the newly created ones |
| OrderBooking.OrderStore.constructor | station/serializers.py:68 | an empty order book over a catalogue satisfies the store invariant |
| OrderBooking.OrderStore.InsertTickets | station/serializers.py:72-73 | the imperative ticket loop computes `InsertAll` of the old state and leaves the appended tickets in place |
| OrderBooking.OrderStore.Atomically | station/serializers.py:69-73 | the atomic block: its result is `InsertAll` of the old tickets; on failure every write is rolled back; on success the store holds the new order, the loop's tickets and the advanced id counters |
| OrderBooking.OrderStore.CreateOrder | station/serializers.py:68-74 | the transaction: on failure the store is exactly as before; on success one order and the requested tickets are added; the result and new state equal `Book`'s; the invariant is kept |
| Projections.TicketsOfTrip | station/serializers.py:126 | the reverse relation `tickets` of a trip (`source="tickets"`) holds exactly the store's tickets of that trip, in store order |
| Projections.TakenSeats | station/serializers.py:122-127 | `taken_seats` has one entry per ticket of the trip and holds exactly the seats taken on it |
| Projections.TakenSeatsDistinct | station/serializers.py:122-127 | on a store with unique (trip, seat) pairs, no seat is listed twice |
| Projections.CountTickets | station/views.py:141 | the `Count("tickets")` aggregate; `Projections.CountIsTicketsOfTrip` proves it equal to the size of the trip's tickets |
| Projections.TicketsAvailable | station/views.py:141 | the `tickets_available` annotation; `Projections.TicketsAvailableIsFreeSeats` and `Projections.TicketsAvailableNonNegative` state its meaning |
| Projections.CountIsTicketsOfTrip | station/views.py:141 | `Count("tickets")` is the number of tickets of the trip |
| Projections.TicketsAvailableIsFreeSeats | station/views.py:141 | `tickets_available` is the bus's seats minus the number of taken seats |
| Projections.TicketsAvailableNonNegative | station/views.py:141 | on a valid store, `tickets_available` is never negative for a trip with tickets |
| Projections.ListTrip | station/serializers.py:89-104 | a `TripListSerializer` row: the trip's id, source, destination and departure, its bus's info and seat count, and `tickets_available` equal to the seat count minus the seats taken |
| Projections.TripList | station/views.py:137-142 | one row per trip, in order, with its id, its bus's seat count and its `tickets_available` |
| Projections.FacilityNames | station/serializers.py:150 | the bus list shows each facility's name, one per facility, in order |
| Projections.ListBus | station/serializers.py:149-150 | the bus list item, with facilities as names; `Projections.ListBusIsRetrieveWithNames` ties it to the detail |
| Projections.RetrieveBus | station/serializers.py:116-117 | the bus detail, with full facility records; `Projections.ListBusIsRetrieveWithNames` ties it to the list item |
| Projections.ListBusIsRetrieveWithNames | station/serializers.py:116-117 | list and detail projections of a bus agree on every field, the list showing the names of the detail's facilities |
| Projections.RetrieveTrip | station/serializers.py:120-138 | the trip detail nests its own bus, and its `taken_seats` hold exactly the seats taken on the trip |
| QueryParams.Split | station/views.py:40 | `split(",")` gives at least one piece and no piece holds a comma |
| QueryParams.SplitJoin | station/views.py:40 | splitting the comma-join of comma-free pieces gives the pieces back |
| QueryParams.JoinSplit | station/views.py:40 | joining the pieces of a split with commas gives the string back |
| QueryParams.Join | station/views.py:40 | the comma join, the inverse of `split(",")`: `QueryParams.SplitJoin` and `QueryParams.JoinSplit` |
| QueryParams.ParseInt | station/views.py:40 | `int()` in base 10, skipping only tab, LF, VT, FF, CR and space around the literal and refusing more than 4300 digits; `QueryParams.ParseIntOfString` proves it reads back every decimal form `str()` produces |
| QueryParams.ParseIntRejectsInformationSeparator | station/views.py:40 | `int("\x1c1")` is refused: the ASCII information separators are not white space to `int()` |
| QueryParams.ParseIntOfString | station/views.py:40 | `int(str(n)) == n` for every integer n whose decimal form has at most 4300 digits, the forms `str()` produces without raising |
| QueryParams.ParseIntRejectsOverlongLiteral | station/views.py:40 | a literal of more than 4300 digits exceeds CPython's integer-string conversion limit and is refused |
| QueryParams.ParseAll | station/views.py:40 | the list conversion succeeds iff every piece parses, keeps length and order, and a failure names an unparseable piece |
| QueryParams.ParamToInts | station/views.py:37-40 | `_param_to_ints` succeeds iff every comma-separated piece is an integer literal, gives one value per piece, the k-th value being the k-th piece converted, and a failure names a piece that is not one |
| QueryParams.ParamToIntsOfJoin | station/views.py:38-40 | `_param_to_ints` of the comma-joined decimal forms of any non-empty list of integers, each of at most 4300 digits, gives those integers back |
| QueryParams.ParamToIntsExample | station/views.py:39 | the documented example "1,2,3" gives [1, 2, 3] |
| QueryParams.ParamToIntsRejectsBadPiece | station/views.py:40 | a piece that is not an integer literal makes the conversion fail, naming an unparseable piece |
| Viewsets.FacilityJoin | station/views.py:57 | the join rows are exactly the buses that have one of the listed facilities |
| SeqUtil.Distinct | station/views.py:62 | `.distinct()`: the result has no duplicates, holds exactly the elements of its input, and is no longer; `SeqUtil.DistinctOfDistinct` shows it keeps a duplicate-free input as it is |
| Viewsets.FacilityParamRejectsInformationSeparator | station/views.py:37-40 | `?facilities=%1C1` makes `_param_to_ints` fail rather than filter by facility 1 |
| Viewsets.BusQueryset | station/views.py:52-62 | the bus queryset has no duplicates and only stored buses |
| Viewsets.BusFilterIsAnyOf | station/views.py:55-57 | with a parsed filter, a bus is listed iff it is stored and has at least one of the listed facilities (OR) |
| Viewsets.BusQuerysetWithoutFilter | station/views.py:53-62 | with no or an empty `facilities` parameter, every bus is listed once |
| Viewsets.BusQuerysetRejectsBadParam | station/views.py:55-56 | a non-integer piece in the parameter makes the listing fail |
| Viewsets.OrderQueryset | station/views.py:104 | an order is listed iff its user is the requester; anonymous requesters see none |
| Viewsets.PageSizeRejectsOverlongLiteral | station/views.py:92-95 | a page size of more than 4300 digits raises in `int()`, so the default of 3 applies |
| Viewsets.FacilityParamRejectsOverlongLiteral | station/views.py:37-40 | a facilities value of more than 4300 digits makes `_param_to_ints` fail |
| Viewsets.PageSizeRejectsInformationSeparator | station/views.py:92-95 | `page_size=%1C5` is no integer, so the default of 3 applies |
| Viewsets.PageSize | station/views.py:92-95 | default 3; a positive integer request is honoured up to 20; anything else gives 3; always within 1..20 |
| Viewsets.PageSizeHonoursRequest | station/views.py:92-95 | a request for n >= 1 whose decimal form has at most 4300 digits gives n when n <= 20 and 20 above |
| Viewsets.SaveOrderUser | station/views.py:119 | `save` binds a user iff it is called with no positional argument and a `user` keyword; a positional argument is refused |
| Viewsets.PerformCreateAsWritten | station/views.py:119 | the call as written, with the user positional; `Viewsets.PerformCreateAsWrittenFails` states its effect |
| Viewsets.PerformCreate | station/views.py:118-119 | the call with the user by keyword; `Viewsets.PerformCreateBooksForRequester` states its effect |
| Viewsets.CreateThroughView | station/views.py:118-119 | validation comes first and its error is returned as it is; a validated request whose `save` call fails never books; a booked order belongs to the user `save` was given |
| Viewsets.PerformCreateAsWrittenFails | station/views.py:119 | as written, a request that validates fails on the positional argument; one that does not validate gets its validation error; no creation succeeds |
| Viewsets.PerformCreateBooksForRequester | station/views.py:118-119 | corrected, the view books exactly what the store books for the requester, success and failure alike |
| Viewsets.CreatedOrderScopedToRequester | station/views.py:103-119 | a created order joins the requester's order list, and every other requester's list is unchanged |
| Viewsets.SortById | station/views.py:143 | `order_by("id")`; `Viewsets.SortByIdCorrect` proves it sorted and a permutation |
| Viewsets.SortByIdCorrect | station/views.py:143 | `order_by("id")` is a permutation of the trips in ascending id order |
| Viewsets.TripQueryset | station/views.py:133-143 | "list" iff annotated rows with the availability of each trip; other actions give the same trips, ordered by id unless "retrieve" |
| Viewsets.BookingLowersAvailability | station/views.py:141 | after a booking, each trip's `tickets_available` drops by the number of its requested tickets |
| Permissions.IsSafe | station/permissions.py:10 | `SAFE_METHODS`: a method is safe iff it is GET, HEAD or OPTIONS |
| Permissions.HasPermission | station/permissions.py:9-12 | `has_permission`; the lemmas below state its decision for each kind of user and method |
| Permissions.IsAdminUser | station/views.py:67 | the permission of `upload-image`; `Permissions.UnsafeNeedsStaff` proves it agrees with `has_permission` on every unsafe method |
| Permissions.SafeNeedsAuthentication | station/permissions.py:10-11 | GET, HEAD and OPTIONS are allowed iff the user is authenticated |
| Permissions.UnsafeNeedsStaff | station/permissions.py:12 | any other method is allowed iff the user is staff, the same decision as IsAdminUser |
| Permissions.WriteMethodsAreUnsafe | station/permissions.py:10 | POST, PUT, PATCH and DELETE are not safe methods |
| Permissions.AnonymousDenied | station/permissions.py:9-12 | an anonymous or missing user is denied every method |
| Permissions.ReaderMayOnlyRead | station/permissions.py:9-12 | an authenticated non-staff user is allowed exactly the safe methods |
| Permissions.StaffMayDoEverything | station/permissions.py:9-12 | an authenticated staff user is allowed every method |
| Permissions.DecisionDependsOnlyOnSafety | station/permissions.py:9-12 | two methods of the same safety get the same decision |
| Scenarios.TwoSeatBusOrders | station/serializers.py:42-54 | on a two-seat bus with seat 1 sold: seat 1 is AlreadyTaken, seat 3 OutOfRange, seat 2 books and leaves 0 available |
| Scenarios.DuplicateSeatInOneBatch | station/serializers.py:68-74 | one seat twice in one batch validates, and then the order fails with a SeatConflict |
| Scenarios.FilterBusesByFacilities | station/tests/tests_bus_api.py:56-80 | `?facilities=1,2` lists both buses with a facility and not the bus without one |
| Scenarios.ReaderAndStaffOnBuses | station/permissions.py:9-12 | a reader may GET but not POST, staff may POST, anonymous may not GET |
| Scenarios.OrdersScopedPerUser | station/views.py:104 | after user 7 books, user 7 sees that order and user 8 sees none |

## Left out

- Persistence is a value (`StoreState`). The model leaves out database access, `select_related`
  and `prefetch_related`, and query counts. Concurrency between requests is also left out.
- Storage-level unique (trip, seat) constraint: an assumption, since the Ticket model that
  would declare it is not in station/models.py, which defines only `Buss`. It is modelled by
  the lookup inside the ticket loop.
- `Ticket.validate_seat`: its body is not part of this model. `Entities.ValidSeat` takes it to
  accept exactly `1 <= seat <= num_seats`.
- `is_small`: its definition is not part of this model. It is a parameter of the bus projections.
- Ids after a rolled-back transaction: the model restores the id counters. A database sequence
  would not.
- Ordering of tickets by seat: station/models.py defines only `Buss`, so the Ticket model
  definition, with any ordering it declares, is not part of this model. `taken_seats` keeps
  insertion order, and retrieval of records by primary key is a first-match lookup.
- Python `int()` on Unicode digits and Unicode whitespace: not modelled. Only ASCII digits,
  signs, single underscores between digits and the ASCII white space `int()` skips (tab, LF, VT,
  FF, CR and space) are.
- The integer-string conversion limit: the model fixes it at CPython's default of 4300 digits
  (`sys.int_info.default_max_str_digits`). It does not model changing the limit with
  `sys.set_int_max_str_digits` or `PYTHONINTMAXSTRDIGITS`, nor interpreters older than the limit.
- `str(n)` raising for an integer of more than 4300 digits: not modelled as a failure.
  `QueryParams.ParseIntOfString`, `QueryParams.ParamToIntsOfJoin` and
  `Viewsets.PageSizeHonoursRequest` are therefore stated only for integers whose decimal form
  stays within the limit.
- Pagination mechanics (page numbers, links, counts): left out. Only the page size is modelled.
- The order-list projection (`OrderListSerializer` with nested trip rows): not modelled. Its
  nested `tickets_available` reads a trip that is not annotated.
- Framework dispatch: HTTP status codes, response bodies, routing (`urls.py`), the admin site,
  serializer-class selection per action, `upload_image` with its image storage, and the plain
  field serializers (`BussSerializer`, `TripSerializer`, `FacilitySerializer`).
- `Viewsets.CreateThroughView`: it carries validation, `save`'s user binding and the booking.
  The framework's request parsing (JSON, field types) before validation is not modelled.

## Findings

| source | as written | input that shows it | evidently intended | confidence | as-written member | corrected member |
|---|---|---|---|---|---|---|
| station/serializers.py:49-54 | `validate` checks the seat range and then returns None; the framework asserts that `validate` returns the validated data | any order whose tickets are all bookable, e.g. seat 2 on a free two-seat trip | return `attrs` after the seat check | high (not executed) | TicketValidation.ValidateAsWrittenRejectsEverything | TicketValidation.CheckTicket |
| station/views.py:119 | `serializer.save(self.request.user)` passes the user positionally; `save` takes keyword arguments only | a POST whose tickets validate (possible only once `validate` returns `attrs`; with station/serializers.py:49-54 as written, no POST gets past validation to this line) | `serializer.save(user=self.request.user)` | high (not executed) | Viewsets.PerformCreateAsWrittenFails | Viewsets.PerformCreateBooksForRequester |
