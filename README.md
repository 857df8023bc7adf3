# Booking backend: the booking manager, tickets and payments

This Dafny project models the core of a TypeScript event backend. Users enroll for an event,
buy a ticket, pay it, and then book a hotel room. The database is a Prisma/PostgreSQL
database. Here it is one in-memory object, `Database.Store`, with these tables:

- enrollments, keyed by user;
- ticket types;
- tickets, each with a type and a status, RESERVED or PAID;
- rooms, whose `capacity` counts free places;
- bookings `{id, userId, roomId}`;
- payments.

Every table change is stated as a whole new state: `Store.Snapshot()` returns all the tables as
one `Tables` value. The services that only read are functions over the store. The services and
repository calls that write are methods with `modifies db`. A service call ends either with
`Ok(value)` or with `Err(e)`. Four errors are the ones the services throw: NotFound, Forbidden,
Unauthorized and InvalidData. Two errors are failures the code does not anticipate:

- `TypeError`: a property read on `null`;
- `DatabaseError`: the database refuses a write (no row to update, or a broken foreign or unique key).

Modules, following the source's files:

- `Entities`: the rows, the errors and the result type.
- `Database`: the store, its well-formedness invariant `Valid()` and the ticket-type join.
- `BookingRepository`, `TicketsRepository`, `PaymentsRepository`: the Prisma calls, as table
  functions and store methods.
- `BookingService`, `TicketsService`, `PaymentsService`: the services.
- `Scenarios`: one user's journey through the services, from no ticket to a moved booking. It
  runs on a fresh store and has concrete results.

Behaviour of the code that the model keeps as written:

- Both booking validations start with the lookups of the tickets service's `getTicketByUserId`.
  The model defines them once (`TicketsService.GetTicketByUserId`, used by
  `BookingService.EntitledTicket`).
- `validateUpdateBooking` checks, in this order:
  1. entitlement;
  2. an existing booking of the user, Forbidden if there is none;
  3. the new room, Forbidden if it has no free place.
  
  It does not null-check the new room, so a missing room is a `TypeError`, not NotFound. When
  all checks pass, it already moves the capacity: the user's first booking's room goes up by one
  and the new room goes down by one. Moving to the same room is a no-op, but the room must still
  have a free place.
- `putBooking` rewrites booking `bookingId` and never checks that this booking belongs to the
  caller. The capacity swap follows the caller's first booking, whichever booking is rewritten.
  If no booking has that id, the update fails after the capacity has already moved.
- `postBooking` does not check whether the user already has a booking, so one user can book
  twice. `findBooking` is a `findFirst` without `orderBy`; the model lets it return the first of
  those bookings in insertion order.
- `verifyTicketAndEnrollment` does not null-check the caller's enrollment, which gives a
  `TypeError`.
- `paymentProcess` accepts a ticket that is already PAID and adds a second payment for it.
- `getBooking` does not look at enrollments or tickets.

The central invariant proved about bookings is conservation of places. For a room, `Slots` is
its free capacity plus the bookings that hold a place in it. `postBooking` keeps `Slots` for
every room. So does `putBooking` when the rewritten booking is the caller's first booking, the
one whose capacity the swap releases. The lemma `PutBookingForeignBookingBreaksSlots` gives an
input where a foreign `bookingId` breaks it.

## Model

| member | source | states |
|---|---|---|
| Database.FindTicketType | src/repositories/tickets-repository.ts:10-16 | the `include: { TicketType: true }` join: finds the type with that id, or None exactly when no type has that id |
| BookingRepository.FindRoom | src/repositories/booking-repository.ts:4-9 | the room stored under the id, and None exactly when no such room exists |
| BookingRepository.AdjustCapacity | src/repositories/booking-repository.ts:11-34 | the room table with one room's capacity shifted by delta; same keys, that room's id and hotel kept, all other rooms untouched |
| BookingRepository.IncrementThenDecrementIsIdentity | src/repositories/booking-repository.ts:11-34 | incrementing and then decrementing the same room gives back the original room table |
| BookingRepository.DecrementCapacityRoom | src/repositories/booking-repository.ts:11-22 | succeeds exactly when the room exists; then only that room's capacity goes down by one, with no lower bound; otherwise DatabaseError and no change |
| BookingRepository.IncrementCapacityRoom | src/repositories/booking-repository.ts:23-34 | succeeds exactly when the room exists; then only that room's capacity goes up by one; otherwise DatabaseError and no change |
| BookingRepository.FirstBookingIndex | src/repositories/booking-repository.ts:36-42 | the position of the user's first booking in insertion order, the order the model fixes for a `findFirst` without `orderBy`; None exactly when the user has no booking |
| BookingRepository.FindBooking | src/repositories/booking-repository.ts:36-42 | None exactly when the user has no booking; otherwise the first stored booking of the user, with its room |
| BookingRepository.FirstBookingIndexAppend | src/repositories/booking-repository.ts:36-49 | a booking created later does not change which booking is found first; if the user had none, the new one is found |
| BookingRepository.BookingIndexById | src/repositories/booking-repository.ts:51-61 | the position of the booking with that id; None exactly when no booking has that id |
| BookingRepository.MoveBooking | src/repositories/booking-repository.ts:51-61 | same length, ids and users; only the rows with that booking id get the new room |
| BookingRepository.CreateBooking | src/repositories/booking-repository.ts:44-49 | succeeds exactly when the room exists (foreign key); then appends `{userId, roomId}` under a fresh id and bumps the counter; otherwise DatabaseError and no change |
| BookingRepository.UpdateBooking | src/repositories/booking-repository.ts:51-61 | succeeds exactly when the booking id and the room exist; then returns that booking with the new room, and the table changes only in that booking's room |
| BookingService.EntitledTicket | src/services/booking-service.ts:9-17 | NotFound exactly when the user has no enrollment or no ticket; Forbidden exactly when the ticket is RESERVED, remote or without hotel; otherwise the user's own hotel ticket |
| BookingService.ValidateBooking | src/services/booking-service.ts:8-22 | Ok exactly when the user is entitled and the room exists with capacity at least 1; NotFound and Forbidden each characterised in both directions, with entitlement errors first |
| BookingService.ValidateBookingHidesRooms | src/services/booking-service.ts:8-22 | for a user who is not entitled, the answer is the same whatever room is asked for, so it reveals nothing about rooms |
| BookingService.GetBooking | src/services/booking-service.ts:47-52 | NotFound exactly when the user has no booking; otherwise a booking of the user, with the room it references |
| BookingService.UpdateGuard | src/services/booking-service.ts:24-39 | the update checks in source order, each outcome in both directions: NotFound exactly for the entitlement's NotFound; Forbidden exactly for a ticket that is not a hotel ticket, no booking, or a new room with capacity < 1; TypeError exactly when the new room is missing; Ok exactly when all pass; on Ok, the user's first booking |
| BookingService.SwapCapacity | src/services/booking-service.ts:41-43 | same keys; the old room gains one and the new room loses one; the same room is left exactly as it was; all other rooms untouched |
| BookingService.ValidateUpdateBooking | src/services/booking-service.ts:24-44 | on a failed check its error and no change; on success, Ok and only the room table changes, by the capacity swap from the user's first booking's room to the new room |
| BookingService.Occupancy | src/services/booking-service.ts:55-68 | the number of bookings that hold a place in a room; zero exactly when no booking references it |
| BookingService.OccupancyAppend | src/services/booking-service.ts:63-65 | a new booking adds one place to its own room's occupancy and none to others |
| BookingRepository.MoveAbsentBooking | src/repositories/booking-repository.ts:51-61 | rewriting a booking id that is not in the table changes nothing |
| BookingService.OccupancyAfterMove | src/services/booking-service.ts:71-77 | moving one booking takes one place from its old room's occupancy and adds one to the new room's |
| BookingService.PostBookingKeepsSlots | src/services/booking-service.ts:63-65 | a decrement together with an appended booking for that room keeps free plus held places the same for every room |
| BookingService.PutBookingKeepsSlots | src/services/booking-service.ts:71-77 | the capacity swap together with moving that same booking keeps free plus held places the same for every room |
| BookingService.PutBookingKeepsAllSlots | src/services/booking-service.ts:71-77 | the all-rooms form of the previous row |
| BookingService.SwapKeepsNonNegative | src/services/booking-service.ts:38-43 | when the new room had a free place, the swap leaves no capacity negative |
| BookingService.PutBookingForeignBookingBreaksSlots | src/services/booking-service.ts:71-74 | a concrete input: the caller names another user's booking, and the caller's room gains a free place while the caller's booking still holds one |
| BookingService.PostBooking | src/services/booking-service.ts:55-68 | a failed validation gives its error with no change; otherwise exactly one booking `{userId, roomId}` with a fresh id and one place less in that room; `Slots` and non-negative capacities kept; getBooking then returns the new booking, or the user's earlier one if there was one |
| BookingService.PutBooking | src/services/booking-service.ts:71-77 | a failed check gives its error with no change; otherwise the capacity swap always happens; a known bookingId becomes Ok with that booking's room rewritten; an unknown one gives DatabaseError; `Slots` kept when the booking is the caller's first booking |
| TicketsRepository.FindTicketByEnrollmentId | src/repositories/tickets-repository.ts:10-16 | None exactly when no ticket has that enrollment; otherwise a ticket of that enrollment with its own type |
| TicketsRepository.FindTicketById | src/repositories/tickets-repository.ts:18-25 | None exactly when no ticket has that id; otherwise a ticket with that id with its own type |
| TicketsRepository.TicketOfEnrollmentIsUnique | src/repositories/tickets-repository.ts:10-16 | since the enrollment id is a unique key, the lookup by enrollment finds exactly the stored ticket of that enrollment |
| TicketsRepository.FindAppendedTicket | src/repositories/tickets-repository.ts:40-46 | a ticket created for an enrollment without one is what the lookup by that enrollment returns |
| TicketsRepository.MarkPaid | src/repositories/tickets-repository.ts:27-38 | same length, ids, types and enrollments; status PAID exactly on the rows with that id, all others unchanged |
| TicketsRepository.MarkPaidIdempotent | src/repositories/tickets-repository.ts:27-38 | marking the same ticket paid twice equals marking it once |
| TicketsRepository.FindTicketByIdAfterMarkPaid | src/repositories/tickets-repository.ts:18-38 | after marking, the lookup by id finds the same ticket and type, now PAID |
| TicketsRepository.TicketProcessPayment | src/repositories/tickets-repository.ts:27-38 | succeeds exactly when the ticket exists; then only ticket statuses change, by MarkPaid; otherwise DatabaseError and no change |
| TicketsRepository.CreateTicket | src/repositories/tickets-repository.ts:40-46 | succeeds exactly when the type exists and the enrollment has no ticket yet; then appends the ticket under a fresh id and returns it with its type; otherwise DatabaseError and no change |
| TicketsService.GetTicketTypes | src/services/tickets-service.ts:5-8 | every stored ticket type, in order |
| TicketsService.GetTicketByUserId | src/services/tickets-service.ts:10-18 | NotFound without enrollment, and NotFound exactly when the enrollment has no ticket; otherwise that enrollment's ticket with its type |
| TicketsService.CreateTicket | src/services/tickets-service.ts:20-32 | NotFound without enrollment; otherwise Ok exactly when the type exists and the enrollment has no ticket; the new ticket is RESERVED, is the only change, and is what getTicketByUserId then returns |
| PaymentsRepository.FindPaymentByTicketId | src/repositories/payments-repository.ts:4-9 | None exactly when no payment is for that ticket; otherwise a payment for that ticket |
| PaymentsRepository.CreatePayment | src/repositories/payments-repository.ts:11-20 | succeeds exactly when the ticket of the params exists; then the row with a fresh id is the only change; otherwise DatabaseError and no change |
| PaymentsService.VerifyTicketAndEnrollment | src/services/payments-service.ts:5-15 | InvalidData for a zero or NaN id; NotFound for an unknown ticket; TypeError without enrollment; Unauthorized and Ok each in both directions; on Ok the ticket with that id and the caller's enrollment, which match |
| PaymentsService.VerifiedTicketIsUsersTicket | src/services/payments-service.ts:5-15 | a ticket that passes the checks is exactly the ticket getTicketByUserId returns for the caller |
| PaymentsService.FindTicketTypeIsUnique | src/repositories/tickets-repository.ts:18-25 | ticket type ids are distinct, so the joined type is determined by its id |
| PaymentsService.GetPaymentByTicketId | src/services/payments-service.ts:17-23 | the check errors unchanged; on Ok the payment for the ticket if one exists, and null exactly when none does |
| PaymentsService.LastDigits | src/services/payments-service.ts:32 | a suffix of the card number of length min(4, length) |
| PaymentsService.PaymentData | src/services/payments-service.ts:28-33 | the record carries the given ticket id, the price of the ticket's type, the card's issuer and the card number's last digits |
| PaymentsService.PaymentProcess | src/services/payments-service.ts:25-38 | a failed check gives its error with no change; otherwise exactly one payment is added, its ticket is marked PAID, and nothing else changes; a first payment is what getPaymentByTicketId then returns |
| PaymentsService.FindAppendedPayment | src/repositories/payments-repository.ts:4-20 | a payment created for a ticket without one is what the lookup by that ticket returns |
| Scenarios.BuyTicket | src/services/tickets-service.ts:20-32 | with no ticket, booking is NotFound; buying gives ticket 1, RESERVED, as the only change |
| Scenarios.PayTicket | src/services/payments-service.ts:25-38 | booking on a RESERVED ticket is Forbidden; paying records price 250 and digits "1111", and the ticket becomes PAID |
| Scenarios.TryFullRoom | src/services/booking-service.ts:19-21 | with a paid hotel ticket, booking the full room 2 is Forbidden and changes nothing |
| Scenarios.BookRoom | src/services/booking-service.ts:55-68 | booking room 1 gives booking 1 and takes room 1's last place |
| Scenarios.ChangeRoom | src/services/booking-service.ts:71-77 | moving booking 1 to room 3 gives room 1 its place back and takes one of room 3's; getBooking then shows room 3 |
| Scenarios.HotelGuestJourney | tests/integration/booking.test.ts:52-97 | the whole journey on a fresh store, with each service's concrete answer |

## Left out

- HTTP controllers, routers, the status-code mapping of the errors, and authentication. The user id is a parameter.
- Request validation beyond two preconditions: `roomId >= 1` (src/schemas/booking-schema.ts:4) and `ticketTypeId >= 1` (src/schemas/ticket-schema.ts:5).
- A ticket id reaches the payments service as an integer or NaN. Fractional numbers are not modelled.
- BookingService.PutBooking: `bookingId` is `Number(req.params.bookingId)` (src/controllers/booking-controller.ts:30), which can be NaN or fractional. The model takes an integer. The database would refuse such an id after the swap, as it refuses an unknown id.
- `findBooking` is a `findFirst` without `orderBy` (src/repositories/booking-repository.ts:36-42), so the database defines no order among a user's bookings. The model returns the first in insertion order. Which booking `getBooking` returns, and which booking's room the update swap releases, hold for that order only; they matter when a user has booked twice.
- Integers are unbounded. The 32-bit range of database ids and capacities is not modelled, and neither are the overflow errors it would give.
- Concurrency and transactions. Each service call is one atomic step here. Two requests racing for a room's last place are not modelled, and neither is a crash between the capacity swap and the booking update.
- Row fields the core never reads: names, addresses, images, `createdAt`/`updatedAt`, and the remaining card fields.
- The users table and its foreign keys.
- The enrollments service and the enrollment repository. `findWithAddressByUserId` is a map lookup by user.
- The hotels, events and users services, which are outside this core.
- `ticketProcessPayment` returns its update without awaiting it. It is modelled as completed because its caller awaits it.
- TicketsRepository.CreateTicket: the foreign key to the enrollment is not checked, because its only caller passes the id of an existing enrollment.
- BookingService.PutBooking: `Slots` conservation is stated only when `bookingId` is the caller's first booking. For any other booking the code does not keep it; see `PutBookingForeignBookingBreaksSlots`.
- BookingService.PostBooking: non-negative capacities are kept because the validation demands a free place. The model states nothing about two concurrent requests for the same place.
