/**
  * A user's way from enrollment to a hotel room, through the services in the order the HTTP
  * routes call them: buy a ticket, pay it, book a room, move the booking.
  */
module Scenarios {
  import opened Entities
  import opened Database
  import TicketsService
  import PaymentsService
  import BookingService

  /** The only ticket type: price 250, in person, hotel included. */
  const HotelTicket := TicketType(1, 250, false, true)

  /** User 1 holds enrollment 1. */
  const Enrollments := map[1 := Enrollment(1, 1)]

  /** Room 1 has one free place, room 2 none, room 3 two. */
  const StartRooms := map[1 := Room(1, 1, 1), 2 := Room(2, 1, 0), 3 := Room(3, 1, 2)]

  /** Before the user has a ticket, booking is NotFound; buying one gives ticket 1, RESERVED. */
  method BuyTicket(db: Store) returns (early: Result<Booking>, ticket: Result<TicketWithType>)
    requires db.Valid() && db.Snapshot() == Tables(Enrollments, [HotelTicket], [], StartRooms, [], [], 1, 1, 1)
    modifies db
    ensures db.Valid()
    ensures early == Err(NotFound)
    ensures ticket == Ok(TicketWithType(Ticket(1, 1, 1, Reserved), HotelTicket))
    ensures db.Snapshot() == Tables(Enrollments, [HotelTicket], [Ticket(1, 1, 1, Reserved)], StartRooms, [], [], 2, 1, 1)
  {
    early := BookingService.PostBooking(db, 1, 1);
    ticket := TicketsService.CreateTicket(db, 1, 1);
  }

  /** A RESERVED ticket is Forbidden to book; paying it records 250 with the card's last four digits. */
  method PayTicket(db: Store) returns (unpaid: Result<Booking>, payment: Result<Payment>)
    requires db.Valid()
    requires db.Snapshot() == Tables(Enrollments, [HotelTicket], [Ticket(1, 1, 1, Reserved)], StartRooms, [], [], 2, 1, 1)
    modifies db
    ensures db.Valid()
    ensures unpaid == Err(Forbidden)
    ensures payment == Ok(Payment(1, 1, 250, "VISA", "1111"))
    ensures db.Snapshot() == Tables(Enrollments, [HotelTicket], [Ticket(1, 1, 1, Paid)], StartRooms, [],
                                    [Payment(1, 1, 250, "VISA", "1111")], 2, 1, 2)
  {
    unpaid := BookingService.PostBooking(db, 1, 1);
    payment := PaymentsService.PaymentProcess(db, Finite(1), 1, CardData("VISA", "4111111111111111", "Ana", "12/30", "123"));
  }

  /** After payment, booking the full room 2 is Forbidden and changes nothing. */
  method TryFullRoom(db: Store) returns (full: Result<Booking>)
    requires db.Valid()
    requires db.Snapshot() == Tables(Enrollments, [HotelTicket], [Ticket(1, 1, 1, Paid)], StartRooms, [],
                                     [Payment(1, 1, 250, "VISA", "1111")], 2, 1, 2)
    modifies db
    ensures db.Valid()
    ensures full == Err(Forbidden)
    ensures db.Snapshot() == old(db.Snapshot())
  {
    full := BookingService.PostBooking(db, 1, 2);
  }

  /** Booking room 1 gives booking 1 and takes the room's last free place. */
  method BookRoom(db: Store) returns (booked: Result<Booking>)
    requires db.Valid()
    requires db.Snapshot() == Tables(Enrollments, [HotelTicket], [Ticket(1, 1, 1, Paid)], StartRooms, [],
                                     [Payment(1, 1, 250, "VISA", "1111")], 2, 1, 2)
    modifies db
    ensures db.Valid()
    ensures booked == Ok(Booking(1, 1, 1))
    ensures db.Snapshot() == Tables(Enrollments, [HotelTicket], [Ticket(1, 1, 1, Paid)], StartRooms[1 := Room(1, 1, 0)],
                                    [Booking(1, 1, 1)], [Payment(1, 1, 250, "VISA", "1111")], 2, 2, 2)
  {
    booked := BookingService.PostBooking(db, 1, 1);
  }

  /** Moving booking 1 to room 3 gives room 1 its place back and takes one of room 3's; the user's booking is then in room 3. */
  method ChangeRoom(db: Store) returns (moved: Result<Booking>, current: Result<BookingWithRoom>)
    requires db.Valid()
    requires db.Snapshot() == Tables(Enrollments, [HotelTicket], [Ticket(1, 1, 1, Paid)], StartRooms[1 := Room(1, 1, 0)],
                                     [Booking(1, 1, 1)], [Payment(1, 1, 250, "VISA", "1111")], 2, 2, 2)
    modifies db
    ensures db.Valid()
    ensures moved == Ok(Booking(1, 1, 3))
    ensures current == Ok(BookingWithRoom(Booking(1, 1, 3), Room(3, 1, 1)))
    ensures db.Snapshot() == Tables(Enrollments, [HotelTicket], [Ticket(1, 1, 1, Paid)], StartRooms[3 := Room(3, 1, 1)],
                                    [Booking(1, 1, 3)], [Payment(1, 1, 250, "VISA", "1111")], 2, 2, 2)
  {
    moved := BookingService.PutBooking(db, 1, 1, 3);
    current := BookingService.GetBooking(db, 1);
  }

  /** The whole journey on a fresh store, from no ticket to a booking moved to room 3. */
  method HotelGuestJourney() returns (early: Result<Booking>, unpaid: Result<Booking>, payment: Result<Payment>,
                                       full: Result<Booking>, booked: Result<Booking>, current: Result<BookingWithRoom>)
    ensures early == Err(NotFound) && unpaid == Err(Forbidden) && full == Err(Forbidden)
    ensures payment == Ok(Payment(1, 1, 250, "VISA", "1111"))
    ensures booked == Ok(Booking(1, 1, 1))
    ensures current == Ok(BookingWithRoom(Booking(1, 1, 3), Room(3, 1, 1)))
  {
    var db := new Store(Enrollments, [HotelTicket], StartRooms);
    var ticket, moved;
    early, ticket := BuyTicket(db);
    unpaid, payment := PayTicket(db);
    full := TryFullRoom(db);
    booked := BookRoom(db);
    moved, current := ChangeRoom(db);
  }
}
