/** The store operations on rooms and bookings that the booking service relies on. */
module BookingRepository {
  import opened Entities
  import opened Database

  /** findRoom: the room with that id, or null. */
  function FindRoom(rooms: map<int, Room>, roomId: int): (r: Option<Room>)
    requires RoomsKeyed(rooms)
    ensures r.None? <==> roomId !in rooms
    ensures r.Some? ==> r.value == rooms[roomId] && r.value.id == roomId
  {
    if roomId in rooms then Some(rooms[roomId]) else None
  }

  /** The room table after adding `delta` to the capacity of one room and to nothing else. */
  function AdjustCapacity(rooms: map<int, Room>, roomId: int, delta: int): (r: map<int, Room>)
    requires roomId in rooms
    ensures r.Keys == rooms.Keys
    ensures r[roomId].capacity == rooms[roomId].capacity + delta
    ensures r[roomId].id == rooms[roomId].id && r[roomId].hotelId == rooms[roomId].hotelId
    ensures forall id :: id in rooms && id != roomId ==> r[id] == rooms[id]
  {
    rooms[roomId := rooms[roomId].(capacity := rooms[roomId].capacity + delta)]
  }

  /** An increment followed by a decrement of the same room leaves the room table as it was. */
  lemma IncrementThenDecrementIsIdentity(rooms: map<int, Room>, roomId: int)
    requires roomId in rooms
    ensures AdjustCapacity(AdjustCapacity(rooms, roomId, 1), roomId, -1) == rooms
  {
    var once := AdjustCapacity(rooms, roomId, 1);
    var twice := AdjustCapacity(once, roomId, -1);
    assert twice[roomId] == rooms[roomId];
  }

  /**
    * decrementCapacityRoom: an atomic `capacity: { decrement: 1 }` on the row. There is no
    * lower bound: a room at capacity 0 goes to -1. A missing row makes the update fail.
    */
  method DecrementCapacityRoom(db: Store, roomId: int) returns (r: Result<()>)
    requires db.Valid()
    modifies db
    ensures db.Valid()
    ensures r.Ok? <==> roomId in old(db.rooms)
    ensures r.Ok? ==> db.Snapshot() == old(db.Snapshot()).(rooms := AdjustCapacity(old(db.rooms), roomId, -1))
    ensures r.Err? ==> r.error == DatabaseError && db.Snapshot() == old(db.Snapshot())
  {
    if roomId !in db.rooms {
      return Err(DatabaseError);
    }
    db.rooms := AdjustCapacity(db.rooms, roomId, -1);
    return Ok(());
  }

  /** incrementCapacityRoom: an atomic `capacity: { increment: 1 }` on the row. A missing row makes the update fail. */
  method IncrementCapacityRoom(db: Store, roomId: int) returns (r: Result<()>)
    requires db.Valid()
    modifies db
    ensures db.Valid()
    ensures r.Ok? <==> roomId in old(db.rooms)
    ensures r.Ok? ==> db.Snapshot() == old(db.Snapshot()).(rooms := AdjustCapacity(old(db.rooms), roomId, 1))
    ensures r.Err? ==> r.error == DatabaseError && db.Snapshot() == old(db.Snapshot())
  {
    if roomId !in db.rooms {
      return Err(DatabaseError);
    }
    db.rooms := AdjustCapacity(db.rooms, roomId, 1);
    return Ok(());
  }

  /** Whether some booking belongs to the user. */
  predicate HasBooking(bookings: seq<Booking>, userId: int) {
    exists i :: 0 <= i < |bookings| && bookings[i].userId == userId
  }

  /** The position of the user's first booking, in the order `findFirst` scans the table. */
  function FirstBookingIndex(bookings: seq<Booking>, userId: int): (r: Option<nat>)
    ensures r.Some? ==> r.value < |bookings| && bookings[r.value].userId == userId
    ensures r.Some? ==> forall j :: 0 <= j < r.value ==> bookings[j].userId != userId
    ensures r.None? <==> !HasBooking(bookings, userId)
  {
    if |bookings| == 0 then None
    else if bookings[0].userId == userId then Some(0)
    else match FirstBookingIndex(bookings[1..], userId)
      case None =>
        assert forall i :: 1 <= i < |bookings| ==> bookings[i] == bookings[1..][i - 1];
        None
      case Some(k) => Some(k + 1)
  }

  /** findBooking: the user's first booking together with its room, or null. */
  function FindBooking(bookings: seq<Booking>, rooms: map<int, Room>, userId: int): (r: Option<BookingWithRoom>)
    requires RoomsResolve(bookings, rooms)
    ensures r.None? <==> !HasBooking(bookings, userId)
    ensures r.Some? ==> r.value.booking.userId == userId && r.value.booking.roomId in rooms
                        && r.value.room == rooms[r.value.booking.roomId]
    ensures r.Some? ==> exists k :: 0 <= k < |bookings| && bookings[k] == r.value.booking
                                    && forall j :: 0 <= j < k ==> bookings[j].userId != userId
  {
    match FirstBookingIndex(bookings, userId)
    case None => None
    case Some(k) => Some(BookingWithRoom(bookings[k], rooms[bookings[k].roomId]))
  }

  /** A booking appended after the user's first booking does not change which booking is found first. */
  lemma {:induction false} FirstBookingIndexAppend(bookings: seq<Booking>, b: Booking, userId: int)
    ensures HasBooking(bookings, userId) ==> FirstBookingIndex(bookings + [b], userId) == FirstBookingIndex(bookings, userId)
    ensures !HasBooking(bookings, userId) && b.userId == userId ==> FirstBookingIndex(bookings + [b], userId) == Some(|bookings|)
  {
    if |bookings| > 0 && bookings[0].userId != userId {
      assert (bookings + [b])[1..] == bookings[1..] + [b];
      FirstBookingIndexAppend(bookings[1..], b, userId);
      if HasBooking(bookings, userId) {
        var i :| 0 <= i < |bookings| && bookings[i].userId == userId;
        assert bookings[1..][i - 1].userId == userId;
      } else {
        assert !HasBooking(bookings[1..], userId) by {
          forall i | 0 <= i < |bookings[1..]| ensures bookings[1..][i].userId != userId {
            assert bookings[1..][i] == bookings[i + 1];
          }
        }
      }
    }
  }

  /** The position of the booking with the given id. */
  function BookingIndexById(bookings: seq<Booking>, bookingId: int): (r: Option<nat>)
    ensures r.Some? ==> r.value < |bookings| && bookings[r.value].id == bookingId
    ensures r.None? <==> forall i :: 0 <= i < |bookings| ==> bookings[i].id != bookingId
  {
    if |bookings| == 0 then None
    else if bookings[0].id == bookingId then Some(0)
    else match BookingIndexById(bookings[1..], bookingId)
      case None =>
        assert forall i :: 1 <= i < |bookings| ==> bookings[i] == bookings[1..][i - 1];
        None
      case Some(k) => Some(k + 1)
  }

  /** The booking table after `update({ where: { id: bookingId }, data: { roomId } })`: only that row's room changes. */
  function MoveBooking(bookings: seq<Booking>, bookingId: int, roomId: int): (r: seq<Booking>)
    ensures |r| == |bookings|
    ensures forall i :: 0 <= i < |bookings| ==> r[i].id == bookings[i].id && r[i].userId == bookings[i].userId
    ensures forall i :: 0 <= i < |bookings| ==>
              r[i].roomId == if bookings[i].id == bookingId then roomId else bookings[i].roomId
  {
    if |bookings| == 0 then []
    else
      var head := if bookings[0].id == bookingId then bookings[0].(roomId := roomId) else bookings[0];
      [head] + MoveBooking(bookings[1..], bookingId, roomId)
  }

  /** Moving a booking that is not in the table changes nothing. */
  lemma {:induction false} MoveAbsentBooking(bookings: seq<Booking>, bookingId: int, roomId: int)
    requires forall i :: 0 <= i < |bookings| ==> bookings[i].id != bookingId
    ensures MoveBooking(bookings, bookingId, roomId) == bookings
  {
    if |bookings| > 0 {
      assert forall i :: 0 <= i < |bookings[1..]| ==> bookings[1..][i] == bookings[i + 1];
      MoveAbsentBooking(bookings[1..], bookingId, roomId);
    }
  }

  /** createBooking: inserts `{ userId, roomId }` with a fresh id; the room is a foreign key. */
  method CreateBooking(db: Store, userId: int, roomId: int) returns (r: Result<Booking>)
    requires db.Valid()
    modifies db
    ensures db.Valid()
    ensures r.Ok? <==> roomId in old(db.rooms)
    ensures r.Ok? ==> r.value == Booking(old(db.nextBookingId), userId, roomId)
    ensures r.Ok? ==> forall i :: 0 <= i < |old(db.bookings)| ==> old(db.bookings)[i].id != r.value.id
    ensures r.Ok? ==> db.Snapshot() == old(db.Snapshot()).(bookings := old(db.bookings) + [r.value],
                                                          nextBookingId := old(db.nextBookingId) + 1)
    ensures r.Err? ==> r.error == DatabaseError && db.Snapshot() == old(db.Snapshot())
  {
    if roomId !in db.rooms {
      return Err(DatabaseError);
    }
    var booking := Booking(db.nextBookingId, userId, roomId);
    db.bookings := db.bookings + [booking];
    db.nextBookingId := db.nextBookingId + 1;
    return Ok(booking);
  }

  /** updateBooking: sets the room of the booking with id `bookingId`; a missing row or room makes the update fail. */
  method UpdateBooking(db: Store, bookingId: int, roomId: int) returns (r: Result<Booking>)
    requires db.Valid()
    modifies db
    ensures db.Valid()
    ensures r.Ok? <==> BookingIndexById(old(db.bookings), bookingId).Some? && roomId in old(db.rooms)
    ensures r.Ok? ==> r.value == old(db.bookings)[BookingIndexById(old(db.bookings), bookingId).value].(roomId := roomId)
    ensures r.Ok? ==> db.Snapshot() == old(db.Snapshot()).(bookings := MoveBooking(old(db.bookings), bookingId, roomId))
    ensures r.Err? ==> r.error == DatabaseError && db.Snapshot() == old(db.Snapshot())
  {
    var k := BookingIndexById(db.bookings, bookingId);
    if k.None? || roomId !in db.rooms {
      return Err(DatabaseError);
    }
    r := Ok(db.bookings[k.value].(roomId := roomId));
    db.bookings := MoveBooking(db.bookings, bookingId, roomId);
  }
}
