/**
  * The database the repositories share: its tables, the keys and constraints it enforces,
  * and the join of a ticket with its ticket type.
  */
module Database {
  import opened Entities

  /** The ticket type with the given id, as the database joins it to a ticket. */
  function FindTicketType(types: seq<TicketType>, id: int): (r: Option<TicketType>)
    ensures r.Some? ==> r.value in types && r.value.id == id
    ensures r.None? <==> forall i :: 0 <= i < |types| ==> types[i].id != id
  {
    if |types| == 0 then None
    else if types[0].id == id then Some(types[0])
    else FindTicketType(types[1..], id)
  }

  /** Enrollments are stored by the id of the user they belong to (the user id is a unique key), and their own ids are distinct (the primary key). */
  predicate EnrollmentsKeyed(enrollments: map<int, Enrollment>) {
    && (forall userId :: userId in enrollments ==> enrollments[userId].userId == userId)
    && (forall u, v :: u in enrollments && v in enrollments && u != v ==> enrollments[u].id != enrollments[v].id)
  }

  predicate DistinctTypeIds(types: seq<TicketType>) {
    forall i, j :: 0 <= i < j < |types| ==> types[i].id != types[j].id
  }

  /** Every ticket references an existing ticket type (the foreign key behind the join). */
  predicate TypesResolve(tickets: seq<Ticket>, types: seq<TicketType>) {
    forall i :: 0 <= i < |tickets| ==> FindTicketType(types, tickets[i].ticketTypeId).Some?
  }

  /** Ticket ids are below the next autoincrement value and distinct; the enrollment id is a unique key. */
  predicate TicketsWellFormed(tickets: seq<Ticket>, types: seq<TicketType>, nextId: int) {
    && TypesResolve(tickets, types)
    && (forall i :: 0 <= i < |tickets| ==> tickets[i].id < nextId)
    && (forall i, j :: 0 <= i < j < |tickets| ==> tickets[i].id != tickets[j].id)
    && (forall i, j :: 0 <= i < j < |tickets| ==> tickets[i].enrollmentId != tickets[j].enrollmentId)
  }

  /** Rooms are stored by their id. */
  predicate RoomsKeyed(rooms: map<int, Room>) {
    forall id :: id in rooms ==> rooms[id].id == id
  }

  /** Every booking references an existing room (the foreign key behind `include: { Room: true }`). */
  predicate RoomsResolve(bookings: seq<Booking>, rooms: map<int, Room>) {
    forall i :: 0 <= i < |bookings| ==> bookings[i].roomId in rooms
  }

  predicate DistinctBookingIds(bookings: seq<Booking>) {
    forall i, j :: 0 <= i < j < |bookings| ==> bookings[i].id != bookings[j].id
  }

  predicate BookingsWellFormed(bookings: seq<Booking>, rooms: map<int, Room>, nextId: int) {
    && RoomsResolve(bookings, rooms)
    && (forall i :: 0 <= i < |bookings| ==> bookings[i].id < nextId)
    && DistinctBookingIds(bookings)
  }

  predicate PaymentsWellFormed(payments: seq<Payment>, nextId: int) {
    forall i :: 0 <= i < |payments| ==> payments[i].id < nextId
  }

  /** The whole content of the database at one moment. */
  datatype Tables = Tables(
    enrollments: map<int, Enrollment>,
    ticketTypes: seq<TicketType>,
    tickets: seq<Ticket>,
    rooms: map<int, Room>,
    bookings: seq<Booking>,
    payments: seq<Payment>,
    nextTicketId: int,
    nextBookingId: int,
    nextPaymentId: int)

  /**
    * The database. Tables keep rows in insertion order, and the model takes that as the order in
    * which `findFirst` without `orderBy` returns rows;
    * the `next…Id` fields are the autoincrement counters that give new rows their ids.
    */
  class Store {
    var enrollments: map<int, Enrollment>
    var ticketTypes: seq<TicketType>
    var tickets: seq<Ticket>
    var rooms: map<int, Room>
    var bookings: seq<Booking>
    var payments: seq<Payment>
    var nextTicketId: int
    var nextBookingId: int
    var nextPaymentId: int

    /** The keys and constraints the database enforces on every row. */
    ghost predicate Valid()
      reads this
    {
      && EnrollmentsKeyed(enrollments)
      && DistinctTypeIds(ticketTypes)
      && TicketsWellFormed(tickets, ticketTypes, nextTicketId)
      && RoomsKeyed(rooms)
      && BookingsWellFormed(bookings, rooms, nextBookingId)
      && PaymentsWellFormed(payments, nextPaymentId)
    }

    ghost function Snapshot(): Tables
      reads this
    {
      Tables(enrollments, ticketTypes, tickets, rooms, bookings, payments, nextTicketId, nextBookingId, nextPaymentId)
    }

    /** A database seeded with enrollments, ticket types and rooms, which other parts of the system create. */
    constructor (enrollments: map<int, Enrollment>, ticketTypes: seq<TicketType>, rooms: map<int, Room>)
      requires EnrollmentsKeyed(enrollments) && DistinctTypeIds(ticketTypes) && RoomsKeyed(rooms)
      ensures Valid()
      ensures Snapshot() == Tables(enrollments, ticketTypes, [], rooms, [], [], 1, 1, 1)
    {
      this.enrollments := enrollments;
      this.ticketTypes := ticketTypes;
      this.tickets := [];
      this.rooms := rooms;
      this.bookings := [];
      this.payments := [];
      this.nextTicketId := 1;
      this.nextBookingId := 1;
      this.nextPaymentId := 1;
    }
  }
}
