/** The rows of the booking backend's database and the errors its services raise. */
module Entities {

  datatype Option<T> = None | Some(value: T)

  /** The error objects the services throw, and the two runtime failures they do not anticipate. */
  datatype Error =
    | NotFound       // notFoundError, answered with 404
    | Forbidden      // forbiddenBookingError, answered with 403
    | Unauthorized   // unauthorizedError, answered with 401
    | InvalidData    // invalidDataError, answered with 400
    | TypeError      // a property read on null: an uncaught JavaScript TypeError
    | DatabaseError  // the database refuses a write: no row to update, or a broken foreign or unique key

  /** What a service call gives back: its value, or the error it throws. */
  datatype Result<T> = Ok(value: T) | Err(error: Error)

  datatype TicketStatus = Reserved | Paid

  /** A user's registration; the database keeps at most one per user. Its address is not modelled. */
  datatype Enrollment = Enrollment(id: int, userId: int)

  datatype TicketType = TicketType(id: int, price: int, isRemote: bool, includesHotel: bool)

  datatype Ticket = Ticket(id: int, ticketTypeId: int, enrollmentId: int, status: TicketStatus)

  /** A ticket row together with the ticket type it references, as `include: { TicketType: true }` returns it. */
  datatype TicketWithType = TicketWithType(ticket: Ticket, ticketType: TicketType)

  /** A hotel room; `capacity` counts its free places. */
  datatype Room = Room(id: int, hotelId: int, capacity: int)

  datatype Booking = Booking(id: int, userId: int, roomId: int)

  /** A booking row together with its room, as `include: { Room: true }` returns it. */
  datatype BookingWithRoom = BookingWithRoom(booking: Booking, room: Room)

  datatype CardData = CardData(issuer: string, number: string, name: string, expirationDate: string, cvv: string)

  /** The fields of a payment row other than its id. */
  datatype PaymentParams = PaymentParams(ticketId: int, value: int, cardIssuer: string, cardLastDigits: string)

  datatype Payment = Payment(id: int, ticketId: int, value: int, cardIssuer: string, cardLastDigits: string)

  datatype TicketAndEnrollment = TicketAndEnrollment(ticket: TicketWithType, enrollment: Enrollment)

  /** A JavaScript number as it reaches the payments service: an integer, or NaN (what `Number` makes of a non-numeric query string). */
  datatype JsNumber = Finite(n: int) | NaN
}
