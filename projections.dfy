/**
 * The read-side projections of the serializers: a trip's taken seats and available
 * tickets, the trip list row and trip detail, and a bus's facilities projected to
 * names (list) or to full records (retrieve).
 */
module Projections {
  import opened Wrappers
  import opened SeqUtil
  import opened Entities

  /** The tickets of one trip (the reverse relation Trip.tickets), in store order. */
  function TicketsOfTrip(tickets: seq<Ticket>, tripId: nat): (r: seq<Ticket>)
    ensures forall t :: t in r <==> t in tickets && t.trip == tripId
    ensures |r| <= |tickets|
  {
    if tickets == [] then []
    else (if tickets[0].trip == tripId then [tickets[0]] else []) + TicketsOfTrip(tickets[1..], tripId)
  }

  function Seats(ts: seq<Ticket>): (r: seq<int>)
    ensures |r| == |ts| && forall k :: 0 <= k < |ts| ==> r[k] == ts[k].seat
  {
    seq(|ts|, k requires 0 <= k < |ts| => ts[k].seat)
  }

  /** `taken_seats`: the `seat` of every ticket of the trip. */
  function TakenSeats(tickets: seq<Ticket>, tripId: nat): (r: seq<int>)
    ensures |r| == |TicketsOfTrip(tickets, tripId)|
    ensures forall seat :: seat in r <==> SeatTaken(tickets, tripId, seat)
  {
    var ts := TicketsOfTrip(tickets, tripId);
    var r := Seats(ts);
    assert forall seat :: seat in r ==> SeatTaken(tickets, tripId, seat) by {
      forall seat | seat in r ensures SeatTaken(tickets, tripId, seat) {
        var k :| 0 <= k < |r| && r[k] == seat;
        assert ts[k] in ts;
      }
    }
    assert forall seat :: SeatTaken(tickets, tripId, seat) ==> seat in r by {
      forall seat | SeatTaken(tickets, tripId, seat) ensures seat in r {
        var t :| t in tickets && t.trip == tripId && t.seat == seat;
        var k :| 0 <= k < |ts| && ts[k] == t;
        assert r[k] == seat;
      }
    }
    r
  }

  /** On a store whose (trip, seat) pairs are unique, no seat is listed twice. */
  lemma TakenSeatsDistinct(tickets: seq<Ticket>, tripId: nat)
    requires SeatsUnique(tickets)
    ensures NoDuplicates(TakenSeats(tickets, tripId))
  {
    TicketsOfTripUnique(tickets, tripId);
    var ts := TicketsOfTrip(tickets, tripId);
    var r := TakenSeats(tickets, tripId);
    forall i, j | 0 <= i < j < |r| ensures r[i] != r[j] {
      assert r[i] == ts[i].seat && r[j] == ts[j].seat;
      assert ts[i].trip == tripId && ts[j].trip == tripId by {
        assert ts[i] in ts && ts[j] in ts;
      }
    }
  }

  /** Two tickets hold different (trip, seat) pairs. */
  predicate PairDiffers(t: Ticket, u: Ticket) {
    t.trip != u.trip || t.seat != u.seat
  }

  lemma UniqueSplit(tickets: seq<Ticket>)
    requires tickets != [] && SeatsUnique(tickets)
    ensures SeatsUnique(tickets[1..])
    ensures forall u :: u in tickets[1..] ==> PairDiffers(tickets[0], u)
  {
    var rest := tickets[1..];
    forall i, j | 0 <= i < j < |rest| ensures PairDiffers(rest[i], rest[j]) {
      assert rest[i] == tickets[i + 1] && rest[j] == tickets[j + 1];
    }
    forall u | u in rest ensures PairDiffers(tickets[0], u) {
      var m :| 0 <= m < |rest| && rest[m] == u;
      assert tickets[m + 1] == u;
    }
  }

  lemma UniqueCons(t: Ticket, tail: seq<Ticket>)
    requires SeatsUnique(tail)
    requires forall u :: u in tail ==> PairDiffers(t, u)
    ensures SeatsUnique([t] + tail)
  {
    var r := [t] + tail;
    forall i, j | 0 <= i < j < |r| ensures PairDiffers(r[i], r[j]) {
      assert r[j] == tail[j - 1];
      if i > 0 {
        assert r[i] == tail[i - 1];
      } else {
        assert r[j] in tail;
      }
    }
  }

  lemma {:induction false} TicketsOfTripUnique(tickets: seq<Ticket>, tripId: nat)
    requires SeatsUnique(tickets)
    ensures SeatsUnique(TicketsOfTrip(tickets, tripId))
  {
    if tickets != [] {
      UniqueSplit(tickets);
      TicketsOfTripUnique(tickets[1..], tripId);
      if tickets[0].trip == tripId {
        UniqueCons(tickets[0], TicketsOfTrip(tickets[1..], tripId));
      } else {
        assert TicketsOfTrip(tickets, tripId) == TicketsOfTrip(tickets[1..], tripId);
      }
    }
  }

  /** The `Count("tickets")` aggregate over one trip. */
  function CountTickets(tickets: seq<Ticket>, tripId: nat): nat {
    if tickets == [] then 0
    else (if tickets[0].trip == tripId then 1 else 0) + CountTickets(tickets[1..], tripId)
  }

  lemma {:induction false} CountIsTicketsOfTrip(tickets: seq<Ticket>, tripId: nat)
    ensures CountTickets(tickets, tripId) == |TicketsOfTrip(tickets, tripId)|
  {
    if tickets != [] {
      CountIsTicketsOfTrip(tickets[1..], tripId);
    }
  }

  /** The `tickets_available` annotation: the bus's capacity minus the trip's ticket count. */
  function TicketsAvailable(numSeats: int, tickets: seq<Ticket>, tripId: nat): int {
    numSeats - CountTickets(tickets, tripId)
  }

  /** `tickets_available` equals the capacity minus the number of taken seats of the trip. */
  lemma TicketsAvailableIsFreeSeats(numSeats: int, tickets: seq<Ticket>, tripId: nat)
    ensures TicketsAvailable(numSeats, tickets, tripId) == numSeats - |TakenSeats(tickets, tripId)|
  {
    CountIsTicketsOfTrip(tickets, tripId);
  }

  /** The seat numbers 1..n. */
  function SeatNumbers(n: int): (r: set<int>)
    ensures forall x :: x in r <==> 1 <= x <= n
    ensures |r| == if n < 0 then 0 else n
    decreases n
  {
    if n <= 0 then {} else SeatNumbers(n - 1) + {n}
  }

  lemma {:induction false} CardOfDistinct(xs: seq<int>)
    requires NoDuplicates(xs)
    ensures |set x | x in xs| == |xs|
  {
    if xs != [] {
      var init := xs[..|xs| - 1];
      assert NoDuplicates(init);
      CardOfDistinct(init);
      assert xs == init + [xs[|xs| - 1]];
      assert (set x | x in xs) == (set x | x in init) + {xs[|xs| - 1]};
    }
  }

  /** Distinct seats within 1..n are at most n. */
  lemma DistinctSeatsBounded(xs: seq<int>, n: int)
    requires NoDuplicates(xs)
    requires forall k :: 0 <= k < |xs| ==> ValidSeat(xs[k], n)
    ensures xs == [] || |xs| <= n
  {
    if xs != [] {
      assert ValidSeat(xs[0], n);
      CardOfDistinct(xs);
      var a := set x | x in xs;
      var b := SeatNumbers(n);
      assert a <= b;
      assert |b| == |a| + |b - a| by {
        assert b == a + (b - a);
      }
    }
  }

  /**
   * On a valid store, a trip never has more tickets than its bus has seats, so
   * `tickets_available` is never negative (unless the capacity itself is negative and
   * the trip has no tickets).
   */
  lemma TicketsAvailableNonNegative(s: StoreState, tripId: nat)
    requires StoreValid(s)
    requires Capacity(s.trips, s.buses, tripId).Some?
    ensures var n := Capacity(s.trips, s.buses, tripId).value;
      TicketsAvailable(n, s.tickets, tripId) >= 0 || CountTickets(s.tickets, tripId) == 0
  {
    var n := Capacity(s.trips, s.buses, tripId).value;
    var seats := TakenSeats(s.tickets, tripId);
    TakenSeatsDistinct(s.tickets, tripId);
    var ts := TicketsOfTrip(s.tickets, tripId);
    forall k | 0 <= k < |seats| ensures ValidSeat(seats[k], n) {
      assert ts[k] in ts;
      assert SeatFits(s.trips, s.buses, ts[k]);
    }
    DistinctSeatsBounded(seats, n);
    TicketsAvailableIsFreeSeats(n, s.tickets, tripId);
  }

  /** A row of the trip list (TripListSerializer). */
  datatype TripRow = TripRow(
    id: nat, source: string, destination: string, departure: int,
    busInfo: Option<string>, busNumSeats: int, ticketsAvailable: int)

  function ListTrip(t: Trip, bus: Bus, tickets: seq<Ticket>): (r: TripRow)
    ensures r.id == t.id && r.source == t.source && r.destination == t.destination
    ensures r.departure == t.departure && r.busInfo == bus.info && r.busNumSeats == bus.numSeats
    ensures r.ticketsAvailable == bus.numSeats - |TakenSeats(tickets, t.id)|
  {
    TicketsAvailableIsFreeSeats(bus.numSeats, tickets, t.id);
    TripRow(t.id, t.source, t.destination, t.departure, bus.info, bus.numSeats,
            TicketsAvailable(bus.numSeats, tickets, t.id))
  }

  /** The annotated trip list: one row per trip, in order, each with its availability. */
  function TripList(trips: seq<Trip>, buses: seq<Bus>, tickets: seq<Ticket>): (r: seq<TripRow>)
    requires TripsResolve(trips, buses)
    ensures |r| == |trips|
    ensures forall i :: 0 <= i < |trips| ==>
              && r[i].id == trips[i].id
              && r[i].busNumSeats == FindBus(buses, trips[i].bus).value.numSeats
              && r[i].ticketsAvailable == r[i].busNumSeats - |TakenSeats(tickets, trips[i].id)|
  {
    seq(|trips|, i requires 0 <= i < |trips| => ListTrip(trips[i], FindBus(buses, trips[i].bus).value, tickets))
  }

  /** The names of the facilities, in relation order (the list projection). */
  function FacilityNames(fs: seq<Facility>): (r: seq<string>)
    ensures |r| == |fs| && forall k :: 0 <= k < |fs| ==> r[k] == fs[k].name
  {
    seq(|fs|, k requires 0 <= k < |fs| => fs[k].name)
  }

  /**
   * A bus in the list (BussListSerializer) and in the detail view (BussRetrieveSerializer).
   * `is_small` is computed by code outside this model and is passed in.
   */
  datatype BusListItem = BusListItem(id: nat, info: Option<string>, numSeats: int, isSmall: bool, facilities: seq<string>)
  datatype BusDetail = BusDetail(id: nat, info: Option<string>, numSeats: int, isSmall: bool, facilities: seq<Facility>)

  function ListBus(b: Bus, isSmall: bool): BusListItem {
    BusListItem(b.id, b.info, b.numSeats, isSmall, FacilityNames(b.facilities))
  }

  function RetrieveBus(b: Bus, isSmall: bool): BusDetail {
    BusDetail(b.id, b.info, b.numSeats, isSmall, b.facilities)
  }

  /**
   * The two bus projections agree on every scalar field; the list shows exactly the names
   * of the facility records the detail view shows, one per record, in the same order.
   */
  lemma ListBusIsRetrieveWithNames(b: Bus, isSmall: bool)
    ensures var l, d := ListBus(b, isSmall), RetrieveBus(b, isSmall);
      && l.id == d.id && l.info == d.info && l.numSeats == d.numSeats && l.isSmall == d.isSmall
      && |l.facilities| == |d.facilities|
      && forall k :: 0 <= k < |d.facilities| ==> l.facilities[k] == d.facilities[k].name
  {
  }

  /** A trip's detail view (TripRetrieveSerializer): nested bus detail and taken seats. */
  datatype TripDetail = TripDetail(
    id: nat, source: string, destination: string, departure: int, bus: BusDetail, takenSeats: seq<int>)

  function RetrieveTrip(t: Trip, buses: seq<Bus>, tickets: seq<Ticket>, isSmall: bool): (r: TripDetail)
    requires FindBus(buses, t.bus).Some?
    ensures r.bus.id == t.bus
    ensures forall seat :: seat in r.takenSeats <==> SeatTaken(tickets, t.id, seat)
  {
    TripDetail(t.id, t.source, t.destination, t.departure,
               RetrieveBus(FindBus(buses, t.bus).value, isSmall), TakenSeats(tickets, t.id))
  }
}
