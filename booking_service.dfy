/**
  * The booking manager: who may book a hotel room, reading a user's booking, booking a room,
  * and moving a booking to another room, with the room capacities that go with them.
  */
module BookingService {
  import opened Entities
  import opened Database
  import opened BookingRepository
  import TicketsService

  /** A ticket that entitles its holder to a hotel room: not RESERVED (so PAID), not remote, and including the hotel. */
  predicate IsHotelTicket(t: TicketWithType) {
    t.ticket.status != Reserved && !t.ticketType.isRemote && t.ticketType.includesHotel
  }

  /**
    * The checks both validations start with: the user's enrollment and its ticket must exist
    * (NotFound), and the ticket must be a hotel ticket (Forbidden). These are the same two lookups
    * the tickets service's getTicketByUserId performs, so they are modelled by it.
    */
  function EntitledTicket(db: Store, userId: int): (r: Result<TicketWithType>)
    reads db
    requires db.Valid()
    ensures userId !in db.enrollments ==> r == Err(NotFound)
    ensures r == Err(NotFound) <==> TicketsService.GetTicketByUserId(db, userId).Err?
    ensures r == Err(Forbidden) <==> TicketsService.GetTicketByUserId(db, userId).Ok?
                                     && !IsHotelTicket(TicketsService.GetTicketByUserId(db, userId).value)
    ensures r.Ok? ==> IsHotelTicket(r.value) && r.value.ticket in db.tickets
                      && r.value.ticket.enrollmentId == db.enrollments[userId].id
    ensures r.Err? ==> r.error == NotFound || r.error == Forbidden
  {
    match TicketsService.GetTicketByUserId(db, userId)
    case Err(e) => Err(e)
    case Ok(t) => if IsHotelTicket(t) then Ok(t) else Err(Forbidden)
  }

  /**
    * validateBooking: the entitlement checks, then the room must exist (NotFound) and have a free
    * place (Forbidden). Entitlement is decided first, so a user without a hotel ticket learns
    * nothing about the room.
    */
  function ValidateBooking(db: Store, userId: int, roomId: int): (r: Result<()>)
    reads db
    requires db.Valid()
    ensures EntitledTicket(db, userId).Err? ==> r == Err(EntitledTicket(db, userId).error)
    ensures r.Ok? <==> EntitledTicket(db, userId).Ok? && roomId in db.rooms && db.rooms[roomId].capacity >= 1
    ensures r == Err(NotFound) <==> EntitledTicket(db, userId) == Err(NotFound)
                                    || (EntitledTicket(db, userId).Ok? && roomId !in db.rooms)
    ensures r == Err(Forbidden) <==> EntitledTicket(db, userId) == Err(Forbidden)
                                     || (EntitledTicket(db, userId).Ok? && roomId in db.rooms && db.rooms[roomId].capacity < 1)
    ensures r.Err? ==> r.error == NotFound || r.error == Forbidden
  {
    match EntitledTicket(db, userId)
    case Err(e) => Err(e)
    case Ok(_) =>
      match FindRoom(db.rooms, roomId)
      case None => Err(NotFound)
      case Some(room) => if room.capacity < 1 then Err(Forbidden) else Ok(())
  }

  /** For a user who is not entitled, the outcome is the same whatever room is asked for, existing or not. */
  lemma ValidateBookingHidesRooms(db: Store, userId: int, roomId: int, otherRoomId: int)
    requires db.Valid()
    requires EntitledTicket(db, userId).Err?
    ensures ValidateBooking(db, userId, roomId) == ValidateBooking(db, userId, otherRoomId)
  {
  }

  /** getBooking: the user's first booking with its room, or NotFound. It does not look at enrollments or tickets. */
  function GetBooking(db: Store, userId: int): (r: Result<BookingWithRoom>)
    reads db
    requires db.Valid()
    ensures r.Err? <==> !HasBooking(db.bookings, userId)
    ensures r.Err? ==> r.error == NotFound
    ensures r.Ok? ==> r.value.booking in db.bookings && r.value.booking.userId == userId
                      && r.value.booking.roomId in db.rooms && r.value.room == db.rooms[r.value.booking.roomId]
  {
    match FindBooking(db.bookings, db.rooms, userId)
    case None => Err(NotFound)
    case Some(b) => Ok(b)
  }

  /**
    * The checks of validateUpdateBooking, in the source's order: entitlement, then an existing
    * booking of the user (Forbidden otherwise), then the new room. The room is not checked for
    * null: reading `capacity` of a missing room throws a TypeError. On success, the user's first
    * booking: the one whose room is released.
    */
  function UpdateGuard(db: Store, userId: int, roomId: int): (r: Result<Booking>)
    reads db
    requires db.Valid()
    ensures EntitledTicket(db, userId).Err? ==> r == Err(EntitledTicket(db, userId).error)
    ensures EntitledTicket(db, userId).Ok? && !HasBooking(db.bookings, userId) ==> r == Err(Forbidden)
    ensures r == Err(NotFound) <==> EntitledTicket(db, userId) == Err(NotFound)
    ensures r == Err(Forbidden) <==>
              EntitledTicket(db, userId) == Err(Forbidden)
              || (EntitledTicket(db, userId).Ok?
                  && (!HasBooking(db.bookings, userId) || (roomId in db.rooms && db.rooms[roomId].capacity < 1)))
    ensures r == Err(TypeError) <==> EntitledTicket(db, userId).Ok? && HasBooking(db.bookings, userId) && roomId !in db.rooms
    ensures r.Err? ==> r.error == NotFound || r.error == Forbidden || r.error == TypeError
    ensures r.Ok? <==> EntitledTicket(db, userId).Ok? && HasBooking(db.bookings, userId)
                       && roomId in db.rooms && db.rooms[roomId].capacity >= 1
    ensures r.Ok? ==> FirstBookingIndex(db.bookings, userId).Some?
                      && r.value == db.bookings[FirstBookingIndex(db.bookings, userId).value]
                      && r.value.userId == userId && r.value.roomId in db.rooms
  {
    match EntitledTicket(db, userId)
    case Err(e) => Err(e)
    case Ok(_) =>
      match FindBooking(db.bookings, db.rooms, userId)
      case None => Err(Forbidden)
      case Some(reservation) =>
        match FindRoom(db.rooms, roomId)
        case None => Err(TypeError)
        case Some(room) => if room.capacity < 1 then Err(Forbidden) else Ok(reservation.booking)
  }

  /** Incrementing one room and then decrementing another: the capacity swap of validateUpdateBooking. */
  function SwapCapacity(rooms: map<int, Room>, fromId: int, toId: int): (r: map<int, Room>)
    requires fromId in rooms && toId in rooms
    ensures r.Keys == rooms.Keys
    ensures fromId == toId ==> r == rooms
    ensures fromId != toId ==> r[fromId].capacity == rooms[fromId].capacity + 1
                               && r[toId].capacity == rooms[toId].capacity - 1
    ensures forall id :: id in rooms ==> r[id].id == rooms[id].id && r[id].hotelId == rooms[id].hotelId
    ensures forall id :: id in rooms && id != fromId && id != toId ==> r[id] == rooms[id]
  {
    var swapped := AdjustCapacity(AdjustCapacity(rooms, fromId, 1), toId, -1);
    assert fromId == toId ==> swapped == rooms by {
      if fromId == toId {
        IncrementThenDecrementIsIdentity(rooms, fromId);
      }
    }
    swapped
  }

  /**
    * validateUpdateBooking: the checks of UpdateGuard; when they pass it already moves the
    * capacity, incrementing the current room and decrementing the new one.
    */
  method ValidateUpdateBooking(db: Store, userId: int, roomId: int) returns (r: Result<()>)
    requires db.Valid()
    modifies db
    ensures db.Valid()
    ensures var g := old(UpdateGuard(db, userId, roomId));
            g.Err? ==> r == Err(g.error) && db.Snapshot() == old(db.Snapshot())
    ensures var g := old(UpdateGuard(db, userId, roomId));
            g.Ok? ==> r == Ok(()) && db.Snapshot() == old(db.Snapshot()).(rooms := SwapCapacity(old(db.rooms), g.value.roomId, roomId))
  {
    var guard := UpdateGuard(db, userId, roomId);
    if guard.Err? {
      return Err(guard.error);
    }
    var released := IncrementCapacityRoom(db, guard.value.roomId);
    var claimed := DecrementCapacityRoom(db, roomId);
    return Ok(());
  }

  /** The number of bookings that hold a place in the room. */
  function Occupancy(bookings: seq<Booking>, roomId: int): (n: nat)
    ensures n <= |bookings|
    ensures n == 0 <==> forall i :: 0 <= i < |bookings| ==> bookings[i].roomId != roomId
  {
    if |bookings| == 0 then 0
    else
      assert forall i :: 1 <= i < |bookings| ==> bookings[i] == bookings[1..][i - 1];
      (if bookings[0].roomId == roomId then 1 else 0) + Occupancy(bookings[1..], roomId)
  }

  /** The places of a room: those still free plus those its bookings hold. Booking moves places, it never makes or loses one. */
  function Slots(rooms: map<int, Room>, bookings: seq<Booking>, roomId: int): int {
    (if roomId in rooms then rooms[roomId].capacity else 0) + Occupancy(bookings, roomId)
  }

  predicate NonNegativeCapacities(rooms: map<int, Room>) {
    forall id :: id in rooms ==> rooms[id].capacity >= 0
  }

  lemma {:induction false} OccupancyAppend(bookings: seq<Booking>, b: Booking, roomId: int)
    ensures Occupancy(bookings + [b], roomId) == Occupancy(bookings, roomId) + (if b.roomId == roomId then 1 else 0)
  {
    if |bookings| > 0 {
      assert (bookings + [b])[1..] == bookings[1..] + [b];
      OccupancyAppend(bookings[1..], b, roomId);
    }
  }

  /** Moving the booking at position k from its room to `roomId` moves one place of occupancy between the two rooms. */
  lemma {:induction false} OccupancyAfterMove(bookings: seq<Booking>, k: nat, roomId: int, id: int)
    requires DistinctBookingIds(bookings) && k < |bookings|
    ensures Occupancy(MoveBooking(bookings, bookings[k].id, roomId), id)
            == Occupancy(bookings, id) - (if bookings[k].roomId == id then 1 else 0) + (if roomId == id then 1 else 0)
  {
    var rest := bookings[1..];
    assert forall i :: 0 <= i < |rest| ==> rest[i] == bookings[i + 1];
    var moved := MoveBooking(bookings, bookings[k].id, roomId);
    assert moved[1..] == MoveBooking(rest, bookings[k].id, roomId);
    if k == 0 {
      MoveAbsentBooking(rest, bookings[0].id, roomId);
    } else {
      OccupancyAfterMove(rest, k - 1, roomId, id);
    }
  }

  /** A successful booking turns one free place of the room into a held one: Slots stays the same for every room. */
  lemma PostBookingKeepsSlots(rooms: map<int, Room>, bookings: seq<Booking>, b: Booking, id: int)
    requires b.roomId in rooms
    ensures Slots(AdjustCapacity(rooms, b.roomId, -1), bookings + [b], id) == Slots(rooms, bookings, id)
  {
    OccupancyAppend(bookings, b, id);
  }

  /** Moving the booking at position k together with the capacity swap keeps Slots the same for every room. */
  lemma PutBookingKeepsSlots(rooms: map<int, Room>, bookings: seq<Booking>, k: nat, roomId: int, id: int)
    requires DistinctBookingIds(bookings) && k < |bookings|
    requires bookings[k].roomId in rooms && roomId in rooms
    ensures Slots(SwapCapacity(rooms, bookings[k].roomId, roomId), MoveBooking(bookings, bookings[k].id, roomId), id)
            == Slots(rooms, bookings, id)
  {
    OccupancyAfterMove(bookings, k, roomId, id);
  }

  /** The whole-table form of PutBookingKeepsSlots. */
  lemma PutBookingKeepsAllSlots(rooms: map<int, Room>, bookings: seq<Booking>, k: nat, roomId: int)
    requires DistinctBookingIds(bookings) && k < |bookings|
    requires bookings[k].roomId in rooms && roomId in rooms
    ensures forall id :: Slots(SwapCapacity(rooms, bookings[k].roomId, roomId), MoveBooking(bookings, bookings[k].id, roomId), id)
                         == Slots(rooms, bookings, id)
  {
    forall id ensures Slots(SwapCapacity(rooms, bookings[k].roomId, roomId), MoveBooking(bookings, bookings[k].id, roomId), id)
                      == Slots(rooms, bookings, id) {
      PutBookingKeepsSlots(rooms, bookings, k, roomId, id);
    }
  }

  /** The swap never takes a capacity below zero when the new room had a free place. */
  lemma SwapKeepsNonNegative(rooms: map<int, Room>, fromId: int, toId: int)
    requires fromId in rooms && toId in rooms && rooms[toId].capacity >= 1
    requires NonNegativeCapacities(rooms)
    ensures NonNegativeCapacities(SwapCapacity(rooms, fromId, toId))
  {
  }

  /**
    * putBooking moves the capacity of the caller's first booking but rewrites booking `bookingId`,
    * which need not be the caller's. Here user 10 (booking 1, room 1) names user 20's booking 2
    * (room 2) and moves it to room 3: room 1 gains a free place while booking 1 still holds one.
    */
  lemma PutBookingForeignBookingBreaksSlots()
    ensures var rooms := map[1 := Room(1, 1, 5), 2 := Room(2, 1, 5), 3 := Room(3, 1, 5)];
            var bookings := [Booking(1, 10, 1), Booking(2, 20, 2)];
            Slots(SwapCapacity(rooms, 1, 3), MoveBooking(bookings, 2, 3), 1) == Slots(rooms, bookings, 1) + 1
  {
    var bookings := [Booking(1, 10, 1), Booking(2, 20, 2)];
    assert MoveBooking(bookings, 2, 3) == [Booking(1, 10, 1), Booking(2, 20, 3)];
    assert Occupancy(bookings, 1) == 1;
    assert Occupancy([Booking(1, 10, 1), Booking(2, 20, 3)], 1) == 1;
  }

  /**
    * postBooking: on a failed validation its error, with nothing changed; otherwise the room's
    * capacity goes down by one and exactly one booking `{ userId, roomId }` is added. It does not
    * check whether the user already has a booking.
    */
  method PostBooking(db: Store, userId: int, roomId: int) returns (r: Result<Booking>)
    requires db.Valid() && roomId >= 1
    modifies db
    ensures db.Valid()
    ensures var v := old(ValidateBooking(db, userId, roomId));
            v.Err? ==> r == Err(v.error) && db.Snapshot() == old(db.Snapshot())
    ensures var v := old(ValidateBooking(db, userId, roomId));
            v.Ok? ==> r == Ok(Booking(old(db.nextBookingId), userId, roomId))
                      && db.Snapshot() == old(db.Snapshot()).(rooms := AdjustCapacity(old(db.rooms), roomId, -1),
                                                              bookings := old(db.bookings) + [r.value],
                                                              nextBookingId := old(db.nextBookingId) + 1)
    ensures r.Ok? ==> forall id :: Slots(db.rooms, db.bookings, id) == old(Slots(db.rooms, db.bookings, id))
    ensures old(NonNegativeCapacities(db.rooms)) ==> NonNegativeCapacities(db.rooms)
    ensures r.Ok? && old(!HasBooking(db.bookings, userId)) ==> GetBooking(db, userId) == Ok(BookingWithRoom(r.value, db.rooms[roomId]))
    ensures r.Ok? && old(HasBooking(db.bookings, userId)) ==>
              GetBooking(db, userId).Ok? && GetBooking(db, userId).value.booking == old(GetBooking(db, userId)).value.booking
  {
    var valid := ValidateBooking(db, userId, roomId);
    if valid.Err? {
      return Err(valid.error);
    }
    ghost var rooms0, bookings0 := db.rooms, db.bookings;
    var claimed := DecrementCapacityRoom(db, roomId);
    r := CreateBooking(db, userId, roomId);
    forall id ensures Slots(db.rooms, db.bookings, id) == Slots(rooms0, bookings0, id) {
      PostBookingKeepsSlots(rooms0, bookings0, r.value, id);
    }
    FirstBookingIndexAppend(bookings0, r.value, userId);
  }

  /**
    * putBooking: validateUpdateBooking (which already moves the capacity), then the room of
    * booking `bookingId` is rewritten. `bookingId` is not checked against the caller: the capacity
    * moves with the caller's first booking whichever booking is rewritten, and when no booking has
    * that id the update fails after the capacity has moved.
    */
  method PutBooking(db: Store, userId: int, bookingId: int, roomId: int) returns (r: Result<Booking>)
    requires db.Valid() && roomId >= 1
    modifies db
    ensures db.Valid()
    ensures var g := old(UpdateGuard(db, userId, roomId));
            g.Err? ==> r == Err(g.error) && db.Snapshot() == old(db.Snapshot())
    ensures var g := old(UpdateGuard(db, userId, roomId));
            var k := old(BookingIndexById(db.bookings, bookingId));
            g.Ok? && k.Some? ==> r == Ok(old(db.bookings)[k.value].(roomId := roomId))
                                 && db.Snapshot() == old(db.Snapshot()).(rooms := SwapCapacity(old(db.rooms), g.value.roomId, roomId),
                                                                         bookings := MoveBooking(old(db.bookings), bookingId, roomId))
    ensures var g := old(UpdateGuard(db, userId, roomId));
            var k := old(BookingIndexById(db.bookings, bookingId));
            g.Ok? && k.None? ==> r == Err(DatabaseError)
                                 && db.Snapshot() == old(db.Snapshot()).(rooms := SwapCapacity(old(db.rooms), g.value.roomId, roomId))
    ensures r.Ok? ==> r.value.id == bookingId && r.value.roomId == roomId
    ensures old(NonNegativeCapacities(db.rooms)) ==> NonNegativeCapacities(db.rooms)
    ensures var g := old(UpdateGuard(db, userId, roomId));
            g.Ok? && r.Ok? && bookingId == g.value.id ==>
              forall id :: Slots(db.rooms, db.bookings, id) == old(Slots(db.rooms, db.bookings, id))
  {
    ghost var rooms0, bookings0 := db.rooms, db.bookings;
    ghost var guard := UpdateGuard(db, userId, roomId);
    var valid := ValidateUpdateBooking(db, userId, roomId);
    if valid.Err? {
      return Err(valid.error);
    }
    assert db.rooms == SwapCapacity(rooms0, guard.value.roomId, roomId);
    assert NonNegativeCapacities(rooms0) ==> NonNegativeCapacities(db.rooms) by {
      if NonNegativeCapacities(rooms0) {
        SwapKeepsNonNegative(rooms0, guard.value.roomId, roomId);
      }
    }
    r := UpdateBooking(db, bookingId, roomId);
    if r.Ok? && bookingId == guard.value.id {
      var k := FirstBookingIndex(bookings0, userId).value;
      PutBookingKeepsAllSlots(rooms0, bookings0, k, roomId);
    }
  }
}
