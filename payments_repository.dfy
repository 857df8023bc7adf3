/** The store operations on payments that the payments service relies on. */
module PaymentsRepository {
  import opened Entities
  import opened Database
  import TicketsRepository

  /** findPaymentByTicketId: the first payment recorded for the ticket, or null. */
  function FindPaymentByTicketId(payments: seq<Payment>, ticketId: int): (r: Option<Payment>)
    ensures r.None? <==> forall i :: 0 <= i < |payments| ==> payments[i].ticketId != ticketId
    ensures r.Some? ==> r.value in payments && r.value.ticketId == ticketId
  {
    if |payments| == 0 then None
    else if payments[0].ticketId == ticketId then Some(payments[0])
    else
      assert forall i :: 1 <= i < |payments| ==> payments[i] == payments[1..][i - 1];
      FindPaymentByTicketId(payments[1..], ticketId)
  }

  /**
    * createPayment: inserts `{ ticketId, ...params }` with a fresh id. The spread comes last,
    * so the row's ticket is `params.ticketId`; a ticket that does not exist breaks the foreign key.
    */
  method CreatePayment(db: Store, ticketId: int, params: PaymentParams) returns (r: Result<Payment>)
    requires db.Valid()
    modifies db
    ensures db.Valid()
    ensures r.Ok? <==> TicketsRepository.FindTicketById(old(db.tickets), old(db.ticketTypes), params.ticketId).Some?
    ensures r.Ok? ==> r.value == Payment(old(db.nextPaymentId), params.ticketId, params.value, params.cardIssuer, params.cardLastDigits)
    ensures r.Ok? ==> db.Snapshot() == old(db.Snapshot()).(payments := old(db.payments) + [r.value],
                                                          nextPaymentId := old(db.nextPaymentId) + 1)
    ensures r.Err? ==> r.error == DatabaseError && db.Snapshot() == old(db.Snapshot())
  {
    if TicketsRepository.FindTicketById(db.tickets, db.ticketTypes, params.ticketId).None? {
      return Err(DatabaseError);
    }
    var payment := Payment(db.nextPaymentId, params.ticketId, params.value, params.cardIssuer, params.cardLastDigits);
    db.payments := db.payments + [payment];
    db.nextPaymentId := db.nextPaymentId + 1;
    return Ok(payment);
  }
}
