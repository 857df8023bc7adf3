/** Ticket bookkeeping: the ticket types on offer, the user's ticket, and buying a ticket (it starts RESERVED). */
module TicketsService {
  import opened Entities
  import opened Database
  import TicketsRepository

  /** getTicketTypes: every stored ticket type, in table order, as `findMany` returns them. */
  function GetTicketTypes(db: Store): (r: seq<TicketType>)
    reads db
    ensures |r| == |db.ticketTypes| && forall i :: 0 <= i < |r| ==> r[i] == db.ticketTypes[i]
  {
    db.ticketTypes
  }

  /**
    * getTicketByUserId: the ticket of the user's enrollment with its type. No enrollment and an
    * enrollment without a ticket both give NotFound.
    */
  function GetTicketByUserId(db: Store, userId: int): (r: Result<TicketWithType>)
    reads db
    requires db.Valid()
    ensures userId !in db.enrollments ==> r == Err(NotFound)
    ensures userId in db.enrollments ==>
              (r.Err? <==> forall i :: 0 <= i < |db.tickets| ==> db.tickets[i].enrollmentId != db.enrollments[userId].id)
    ensures r.Err? ==> r.error == NotFound
    ensures r.Ok? ==> userId in db.enrollments && r.value.ticket in db.tickets
                      && r.value.ticket.enrollmentId == db.enrollments[userId].id
    ensures r.Ok? ==> r.value.ticketType in db.ticketTypes && r.value.ticketType.id == r.value.ticket.ticketTypeId
  {
    if userId !in db.enrollments then Err(NotFound)
    else
      match TicketsRepository.FindTicketByEnrollmentId(db.tickets, db.ticketTypes, db.enrollments[userId].id)
      case None => Err(NotFound)
      case Some(t) => Ok(t)
  }

  /**
    * createTicket: without an enrollment, NotFound and nothing changes; otherwise the repository
    * inserts `{ ticketTypeId, enrollmentId, status: RESERVED }`. The service checks neither that the
    * type exists nor that the enrollment has no ticket yet; the database refuses such a row.
    */
  method CreateTicket(db: Store, userId: int, ticketTypeId: int) returns (r: Result<TicketWithType>)
    requires db.Valid() && ticketTypeId >= 1
    modifies db
    ensures db.Valid()
    ensures userId !in old(db.enrollments) ==> r == Err(NotFound) && db.Snapshot() == old(db.Snapshot())
    ensures userId in old(db.enrollments) ==>
              (r.Ok? <==> FindTicketType(old(db.ticketTypes), ticketTypeId).Some?
                          && forall i :: 0 <= i < |old(db.tickets)| ==>
                               old(db.tickets)[i].enrollmentId != old(db.enrollments)[userId].id)
    ensures r.Err? && userId in old(db.enrollments) ==> r.error == DatabaseError && db.Snapshot() == old(db.Snapshot())
    ensures r.Ok? ==> r.value.ticket == Ticket(old(db.nextTicketId), ticketTypeId, old(db.enrollments)[userId].id, Reserved)
    ensures r.Ok? ==> db.Snapshot() == old(db.Snapshot()).(tickets := old(db.tickets) + [r.value.ticket],
                                                          nextTicketId := old(db.nextTicketId) + 1)
    ensures r.Ok? ==> GetTicketByUserId(db, userId) == r
  {
    if userId !in db.enrollments {
      return Err(NotFound);
    }
    var enrollment := db.enrollments[userId];
    ghost var before := db.tickets;
    r := TicketsRepository.CreateTicket(db, ticketTypeId, enrollment.id, Reserved);
    if r.Ok? {
      TicketsRepository.FindAppendedTicket(before, db.ticketTypes, r.value.ticket);
    }
  }
}
