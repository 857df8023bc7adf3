/** The store operations on tickets: lookups that join the ticket type, marking a ticket paid, and inserting a ticket. */
module TicketsRepository {
  import opened Entities
  import opened Database

  /** findTicketByEnrollmentId: the ticket of that enrollment with its type, or null. */
  function FindTicketByEnrollmentId(tickets: seq<Ticket>, types: seq<TicketType>, enrollmentId: int): (r: Option<TicketWithType>)
    requires TypesResolve(tickets, types)
    ensures r.None? <==> forall i :: 0 <= i < |tickets| ==> tickets[i].enrollmentId != enrollmentId
    ensures r.Some? ==> r.value.ticket in tickets && r.value.ticket.enrollmentId == enrollmentId
    ensures r.Some? ==> FindTicketType(types, r.value.ticket.ticketTypeId) == Some(r.value.ticketType)
  {
    if |tickets| == 0 then None
    else if tickets[0].enrollmentId == enrollmentId then
      Some(TicketWithType(tickets[0], FindTicketType(types, tickets[0].ticketTypeId).value))
    else
      assert forall i :: 1 <= i < |tickets| ==> tickets[i] == tickets[1..][i - 1];
      FindTicketByEnrollmentId(tickets[1..], types, enrollmentId)
  }

  /** findTicketById: the ticket with that id with its type, or null. */
  function FindTicketById(tickets: seq<Ticket>, types: seq<TicketType>, ticketId: int): (r: Option<TicketWithType>)
    requires TypesResolve(tickets, types)
    ensures r.None? <==> forall i :: 0 <= i < |tickets| ==> tickets[i].id != ticketId
    ensures r.Some? ==> r.value.ticket in tickets && r.value.ticket.id == ticketId
    ensures r.Some? ==> FindTicketType(types, r.value.ticket.ticketTypeId) == Some(r.value.ticketType)
  {
    if |tickets| == 0 then None
    else if tickets[0].id == ticketId then
      Some(TicketWithType(tickets[0], FindTicketType(types, tickets[0].ticketTypeId).value))
    else
      assert forall i :: 1 <= i < |tickets| ==> tickets[i] == tickets[1..][i - 1];
      FindTicketById(tickets[1..], types, ticketId)
  }

  /** Since the enrollment id is a unique key, the lookup by enrollment finds exactly the stored ticket of that enrollment. */
  lemma TicketOfEnrollmentIsUnique(tickets: seq<Ticket>, types: seq<TicketType>, nextId: int, k: nat)
    requires TicketsWellFormed(tickets, types, nextId) && k < |tickets|
    ensures FindTicketByEnrollmentId(tickets, types, tickets[k].enrollmentId).Some?
    ensures FindTicketByEnrollmentId(tickets, types, tickets[k].enrollmentId).value.ticket == tickets[k]
  {
    var found := FindTicketByEnrollmentId(tickets, types, tickets[k].enrollmentId).value.ticket;
    var j :| 0 <= j < |tickets| && tickets[j] == found;
  }

  /** A ticket appended for an enrollment that had none is what the lookup by that enrollment then finds. */
  lemma {:induction false} FindAppendedTicket(tickets: seq<Ticket>, types: seq<TicketType>, t: Ticket)
    requires TypesResolve(tickets, types) && FindTicketType(types, t.ticketTypeId).Some?
    requires forall i :: 0 <= i < |tickets| ==> tickets[i].enrollmentId != t.enrollmentId
    ensures FindTicketByEnrollmentId(tickets + [t], types, t.enrollmentId)
            == Some(TicketWithType(t, FindTicketType(types, t.ticketTypeId).value))
  {
    assert TypesResolve(tickets + [t], types);
    if |tickets| > 0 {
      assert (tickets + [t])[1..] == tickets[1..] + [t];
      assert forall i :: 0 <= i < |tickets[1..]| ==> tickets[1..][i] == tickets[i + 1];
      FindAppendedTicket(tickets[1..], types, t);
    }
  }

  /** The ticket table after setting the status of the ticket with id `ticketId` to PAID; nothing else changes. */
  function MarkPaid(tickets: seq<Ticket>, ticketId: int): (r: seq<Ticket>)
    ensures |r| == |tickets|
    ensures forall i :: 0 <= i < |tickets| ==>
              r[i].id == tickets[i].id && r[i].ticketTypeId == tickets[i].ticketTypeId
              && r[i].enrollmentId == tickets[i].enrollmentId
    ensures forall i :: 0 <= i < |tickets| ==>
              r[i].status == if tickets[i].id == ticketId then Paid else tickets[i].status
  {
    if |tickets| == 0 then []
    else
      var head := if tickets[0].id == ticketId then tickets[0].(status := Paid) else tickets[0];
      [head] + MarkPaid(tickets[1..], ticketId)
  }

  /** Marking a ticket paid twice is the same as marking it once. */
  lemma {:induction false} MarkPaidIdempotent(tickets: seq<Ticket>, ticketId: int)
    ensures MarkPaid(MarkPaid(tickets, ticketId), ticketId) == MarkPaid(tickets, ticketId)
  {
    if |tickets| > 0 {
      MarkPaidIdempotent(tickets[1..], ticketId);
    }
  }

  /** After marking, the lookup by id finds the same ticket, now PAID, with the same type. */
  lemma {:induction false} FindTicketByIdAfterMarkPaid(tickets: seq<Ticket>, types: seq<TicketType>, ticketId: int)
    requires TypesResolve(tickets, types)
    requires FindTicketById(tickets, types, ticketId).Some?
    ensures TypesResolve(MarkPaid(tickets, ticketId), types)
    ensures var found := FindTicketById(tickets, types, ticketId).value;
            FindTicketById(MarkPaid(tickets, ticketId), types, ticketId)
            == Some(found.(ticket := found.ticket.(status := Paid)))
  {
    if tickets[0].id != ticketId {
      assert forall i :: 0 <= i < |tickets[1..]| ==> tickets[1..][i] == tickets[i + 1];
      FindTicketByIdAfterMarkPaid(tickets[1..], types, ticketId);
    }
  }

  /** ticketProcessPayment: sets that ticket's status to PAID; a missing row makes the update fail. */
  method TicketProcessPayment(db: Store, ticketId: int) returns (r: Result<Ticket>)
    requires db.Valid()
    modifies db
    ensures db.Valid()
    ensures r.Ok? <==> FindTicketById(old(db.tickets), old(db.ticketTypes), ticketId).Some?
    ensures r.Ok? ==> r.value == FindTicketById(old(db.tickets), old(db.ticketTypes), ticketId).value.ticket.(status := Paid)
    ensures r.Ok? ==> db.Snapshot() == old(db.Snapshot()).(tickets := MarkPaid(old(db.tickets), ticketId))
    ensures r.Err? ==> r.error == DatabaseError && db.Snapshot() == old(db.Snapshot())
  {
    var found := FindTicketById(db.tickets, db.ticketTypes, ticketId);
    if found.None? {
      return Err(DatabaseError);
    }
    r := Ok(found.value.ticket.(status := Paid));
    db.tickets := MarkPaid(db.tickets, ticketId);
  }

  /**
    * createTicket: inserts a ticket with a fresh id. The ticket type is a foreign key and the
    * enrollment id a unique key; a row that breaks either is refused.
    */
  method CreateTicket(db: Store, ticketTypeId: int, enrollmentId: int, status: TicketStatus) returns (r: Result<TicketWithType>)
    requires db.Valid()
    modifies db
    ensures db.Valid()
    ensures r.Ok? <==> FindTicketType(old(db.ticketTypes), ticketTypeId).Some?
                       && forall i :: 0 <= i < |old(db.tickets)| ==> old(db.tickets)[i].enrollmentId != enrollmentId
    ensures r.Ok? ==> r.value.ticket == Ticket(old(db.nextTicketId), ticketTypeId, enrollmentId, status)
    ensures r.Ok? ==> Some(r.value.ticketType) == FindTicketType(old(db.ticketTypes), ticketTypeId)
    ensures r.Ok? ==> forall i :: 0 <= i < |old(db.tickets)| ==> old(db.tickets)[i].id != r.value.ticket.id
    ensures r.Ok? ==> db.Snapshot() == old(db.Snapshot()).(tickets := old(db.tickets) + [r.value.ticket],
                                                          nextTicketId := old(db.nextTicketId) + 1)
    ensures r.Err? ==> r.error == DatabaseError && db.Snapshot() == old(db.Snapshot())
  {
    var ticketType := FindTicketType(db.ticketTypes, ticketTypeId);
    var existing := FindTicketByEnrollmentId(db.tickets, db.ticketTypes, enrollmentId);
    if ticketType.None? || existing.Some? {
      return Err(DatabaseError);
    }
    var ticket := Ticket(db.nextTicketId, ticketTypeId, enrollmentId, status);
    db.tickets := db.tickets + [ticket];
    db.nextTicketId := db.nextTicketId + 1;
    return Ok(TicketWithType(ticket, ticketType.value));
  }
}
