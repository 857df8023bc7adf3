/**
  * Paying for a ticket: the checks that the ticket exists and belongs to the caller, reading the
  * payment of a ticket, and recording a card payment, which marks the ticket PAID.
  */
module PaymentsService {
  import opened Entities
  import opened Database
  import TicketsRepository
  import PaymentsRepository
  import TicketsService

  /** `!ticketId || isNaN(ticketId)`: the ticket ids refused before any lookup, zero and NaN. */
  predicate IsMissingId(ticketId: JsNumber) {
    ticketId.NaN? || ticketId.n == 0
  }

  /**
    * verifyTicketAndEnrollment, in the source's order: a zero or NaN id is InvalidData, an unknown
    * ticket NotFound, and a ticket of another enrollment Unauthorized. The caller's enrollment is
    * not checked for null: without one, reading its `id` throws a TypeError.
    */
  function VerifyTicketAndEnrollment(db: Store, userId: int, ticketId: JsNumber): (r: Result<TicketAndEnrollment>)
    reads db
    requires db.Valid()
    ensures IsMissingId(ticketId) ==> r == Err(InvalidData)
    ensures (!IsMissingId(ticketId) && TicketsRepository.FindTicketById(db.tickets, db.ticketTypes, ticketId.n).None?)
            ==> r == Err(NotFound)
    ensures (!IsMissingId(ticketId) && TicketsRepository.FindTicketById(db.tickets, db.ticketTypes, ticketId.n).Some?
             && userId !in db.enrollments) ==> r == Err(TypeError)
    ensures r == Err(Unauthorized) <==>
              !IsMissingId(ticketId) && userId in db.enrollments
              && TicketsRepository.FindTicketById(db.tickets, db.ticketTypes, ticketId.n).Some?
              && TicketsRepository.FindTicketById(db.tickets, db.ticketTypes, ticketId.n).value.ticket.enrollmentId
                 != db.enrollments[userId].id
    ensures r.Ok? <==> !IsMissingId(ticketId) && userId in db.enrollments
                       && TicketsRepository.FindTicketById(db.tickets, db.ticketTypes, ticketId.n).Some?
                       && TicketsRepository.FindTicketById(db.tickets, db.ticketTypes, ticketId.n).value.ticket.enrollmentId
                          == db.enrollments[userId].id
    ensures r.Ok? ==> r.value.ticket.ticket.id == ticketId.n && r.value.ticket.ticket in db.tickets
                      && r.value.ticket.ticketType in db.ticketTypes
                      && r.value.ticket.ticketType.id == r.value.ticket.ticket.ticketTypeId
                      && r.value.enrollment == db.enrollments[userId] && r.value.enrollment.userId == userId
                      && r.value.ticket.ticket.enrollmentId == r.value.enrollment.id
  {
    if IsMissingId(ticketId) then Err(InvalidData)
    else
      match TicketsRepository.FindTicketById(db.tickets, db.ticketTypes, ticketId.n)
      case None => Err(NotFound)
      case Some(ticket) =>
        if userId !in db.enrollments then Err(TypeError)
        else if ticket.ticket.enrollmentId != db.enrollments[userId].id then Err(Unauthorized)
        else Ok(TicketAndEnrollment(ticket, db.enrollments[userId]))
  }

  /**
    * A ticket that passes the checks is the caller's own ticket: the very one that the tickets
    * service's getTicketByUserId returns for the caller.
    */
  lemma VerifiedTicketIsUsersTicket(db: Store, userId: int, ticketId: JsNumber)
    requires db.Valid()
    requires VerifyTicketAndEnrollment(db, userId, ticketId).Ok?
    ensures TicketsService.GetTicketByUserId(db, userId) == Ok(VerifyTicketAndEnrollment(db, userId, ticketId).value.ticket)
  {
    var found := VerifyTicketAndEnrollment(db, userId, ticketId).value.ticket;
    var k :| 0 <= k < |db.tickets| && db.tickets[k] == found.ticket;
    TicketsRepository.TicketOfEnrollmentIsUnique(db.tickets, db.ticketTypes, db.nextTicketId, k);
    FindTicketTypeIsUnique(db.ticketTypes, found.ticketType, TicketsService.GetTicketByUserId(db, userId).value.ticketType);
  }

  /** Ticket type ids are distinct, so a ticket type is determined by its id. */
  lemma FindTicketTypeIsUnique(types: seq<TicketType>, a: TicketType, b: TicketType)
    requires DistinctTypeIds(types) && a in types && b in types && a.id == b.id
    ensures a == b
  {
    var i :| 0 <= i < |types| && types[i] == a;
    var j :| 0 <= j < |types| && types[j] == b;
  }

  /**
    * getPaymentByTicketId: the checks of verifyTicketAndEnrollment with their errors, then the
    * first payment recorded for the ticket, or null when there is none.
    */
  function GetPaymentByTicketId(db: Store, userId: int, ticketId: JsNumber): (r: Result<Option<Payment>>)
    reads db
    requires db.Valid()
    ensures VerifyTicketAndEnrollment(db, userId, ticketId).Err? ==> r == Err(VerifyTicketAndEnrollment(db, userId, ticketId).error)
    ensures r.Ok? <==> VerifyTicketAndEnrollment(db, userId, ticketId).Ok?
    ensures r.Ok? && r.value.None? ==> forall i :: 0 <= i < |db.payments| ==> db.payments[i].ticketId != ticketId.n
    ensures r.Ok? && r.value.Some? ==> r.value.value in db.payments && r.value.value.ticketId == ticketId.n
    ensures r.Ok? && (exists i :: 0 <= i < |db.payments| && db.payments[i].ticketId == ticketId.n) ==> r.value.Some?
  {
    match VerifyTicketAndEnrollment(db, userId, ticketId)
    case Err(e) => Err(e)
    case Ok(_) => Ok(PaymentsRepository.FindPaymentByTicketId(db.payments, ticketId.n))
  }

  /** `number.toString().slice(-4)`: the last four characters of the card number, or all of it when shorter. */
  function LastDigits(number: string): (r: string)
    ensures |r| == if |number| < 4 then |number| else 4
    ensures number[..|number| - |r|] + r == number
  {
    if |number| <= 4 then number else number[|number| - 4..]
  }

  /**
    * The payment record paymentProcess builds: the ticket id it was called with, the price of the
    * ticket's type, the card's issuer and the last digits of the card number.
    */
  function PaymentData(ticketId: int, ticket: TicketWithType, card: CardData): (r: PaymentParams)
    ensures r.ticketId == ticketId && r.value == ticket.ticketType.price && r.cardIssuer == card.issuer
    ensures |r.cardLastDigits| == if |card.number| < 4 then |card.number| else 4
    ensures card.number[..|card.number| - |r.cardLastDigits|] + r.cardLastDigits == card.number
  {
    PaymentParams(ticketId, ticket.ticketType.price, card.issuer, LastDigits(card.number))
  }

  /**
    * paymentProcess: on a failed check its error, with nothing changed. Otherwise one payment row
    * is added for the ticket and the ticket is set to PAID. A ticket that is already PAID is
    * accepted again and gets a second payment.
    */
  method PaymentProcess(db: Store, ticketId: JsNumber, userId: int, card: CardData) returns (r: Result<Payment>)
    requires db.Valid()
    modifies db
    ensures db.Valid()
    ensures var v := old(VerifyTicketAndEnrollment(db, userId, ticketId));
            v.Err? ==> r == Err(v.error) && db.Snapshot() == old(db.Snapshot())
    ensures var v := old(VerifyTicketAndEnrollment(db, userId, ticketId));
            v.Ok? ==> r == Ok(Payment(old(db.nextPaymentId), ticketId.n, v.value.ticket.ticketType.price,
                                      card.issuer, LastDigits(card.number)))
                      && db.Snapshot() == old(db.Snapshot()).(tickets := TicketsRepository.MarkPaid(old(db.tickets), ticketId.n),
                                                              payments := old(db.payments) + [r.value],
                                                              nextPaymentId := old(db.nextPaymentId) + 1)
    ensures var v := old(VerifyTicketAndEnrollment(db, userId, ticketId));
            v.Ok? ==> TicketsRepository.FindTicketById(db.tickets, db.ticketTypes, ticketId.n)
                      == Some(v.value.ticket.(ticket := v.value.ticket.ticket.(status := Paid)))
    ensures r.Ok? && old(PaymentsRepository.FindPaymentByTicketId(db.payments, ticketId.n)).None? ==>
              GetPaymentByTicketId(db, userId, ticketId) == Ok(Some(r.value))
  {
    var verified := VerifyTicketAndEnrollment(db, userId, ticketId);
    if verified.Err? {
      return Err(verified.error);
    }
    ghost var tickets0, payments0 := db.tickets, db.payments;
    var data := PaymentData(ticketId.n, verified.value.ticket, card);
    r := PaymentsRepository.CreatePayment(db, ticketId.n, data);
    var paid := TicketsRepository.TicketProcessPayment(db, ticketId.n);
    TicketsRepository.FindTicketByIdAfterMarkPaid(tickets0, db.ticketTypes, ticketId.n);
    if PaymentsRepository.FindPaymentByTicketId(payments0, ticketId.n).None? {
      FindAppendedPayment(payments0, r.value);
    }
    assert VerifyTicketAndEnrollment(db, userId, ticketId).Ok?;
  }

  /** A payment appended for a ticket that had none is what the lookup by that ticket then finds. */
  lemma {:induction false} FindAppendedPayment(payments: seq<Payment>, p: Payment)
    requires PaymentsRepository.FindPaymentByTicketId(payments, p.ticketId).None?
    ensures PaymentsRepository.FindPaymentByTicketId(payments + [p], p.ticketId) == Some(p)
  {
    if |payments| > 0 {
      assert (payments + [p])[1..] == payments[1..] + [p];
      FindAppendedPayment(payments[1..], p);
    }
  }
}
