/** The ticket table and its status machine: the payment-provider webhook
    (`paiement_webhook`) writes whatever status string it receives, and
    cancellation (`annuler_billet`) accepts only tickets whose status is
    exactly "completed". The webhook's confirmation SMS goes out for the
    status "complete". */
module Tickets {
  import opened Common

  /** One row of the `Ticket` table. */
  datatype Ticket = Ticket(
    id: int,
    notchpayReference: string,
    status: string,
    amount: int,
    currency: string,
    email: string,
    phone: string,
    description: string,
    createdAt: Instant,
    updatedAt: Instant)

  /** The `Ticket` table, rows in storage order. */
  type TicketTable = seq<Ticket>

  /** The primary-key constraint of the table. */
  predicate UniqueIds(db: TicketTable)
  {
    forall a, b :: 0 <= a < b < |db| ==> db[a].id != db[b].id
  }

  /** `session.get(Ticket, id)`: the row with that primary key. */
  function FindById(db: TicketTable, id: int): Option<nat>
  {
    First(db, (t: Ticket) => t.id == id)
  }

  /** `select(Ticket).where(Ticket.notchpay_reference == reference).first()`. */
  function FindByReference(db: TicketTable, reference: string): Option<nat>
  {
    First(db, (t: Ticket) => t.notchpayReference == reference)
  }

  const Completed := "completed"
  const Cancelled := "cancelled"
  /** The status the webhook treats as a confirmed payment. */
  const Complete := "complete"

  const NotFound := HttpError(404, "Billet non trouvé")
  const AlreadyCancelled := HttpError(400, "Le billet a déjà été annulé.")

  function NotCancellable(status: string): HttpError
  {
    HttpError(400, "Le billet ne peut pas être annulé car son statut est '" + status + "'.")
  }

  /** The JSON body of a successful cancellation. */
  datatype CancelReply = CancelReply(message: string, ticketId: int, newStatus: string)

  /** The table after a handler ran, and what the handler answered. */
  datatype Step<+T> = Step(db: TicketTable, reply: Result<T, HttpError>)

  /** `annuler_billet`: a ticket whose status is exactly "completed" becomes
      "cancelled"; every other case is an error and leaves the table as it was. */
  function AnnulerBillet(db: TicketTable, ticketId: int, now: Instant): (r: Step<CancelReply>)
    ensures r.reply.Ok? <==> FindById(db, ticketId).Some? && db[FindById(db, ticketId).value].status == Completed
    ensures r.reply.Err? ==> r.db == db
    ensures FindById(db, ticketId).None? ==> r.reply == Err(NotFound)
    ensures FindById(db, ticketId).Some? && db[FindById(db, ticketId).value].status == Cancelled
            ==> r.reply == Err(AlreadyCancelled)
    ensures FindById(db, ticketId).Some? && db[FindById(db, ticketId).value].status !in {Completed, Cancelled}
            ==> r.reply == Err(NotCancellable(db[FindById(db, ticketId).value].status))
    ensures r.reply.Ok? ==>
              var k := FindById(db, ticketId).value;
              && |r.db| == |db|
              && r.db[k] == db[k].(status := Cancelled, updatedAt := now)
              && (forall m :: 0 <= m < |db| && m != k ==> r.db[m] == db[m])
              && r.reply.value == CancelReply("Billet annulé avec succès", ticketId, Cancelled)
  {
    match FindById(db, ticketId)
    case None => Step(db, Err(NotFound))
    case Some(k) =>
      var ticket := db[k];
      if ticket.status == Completed then
        Step(db[k := ticket.(status := Cancelled, updatedAt := now)],
             Ok(CancelReply("Billet annulé avec succès", ticket.id, Cancelled)))
      else if ticket.status == Cancelled then
        Step(db, Err(AlreadyCancelled))
      else
        Step(db, Err(NotCancellable(ticket.status)))
  }

  /** The confirmation SMS the webhook asks for. Its text carries the
      reference, the amount with its currency, and the description. */
  datatype SmsRequest = SmsRequest(to: string, reference: string, amount: int, currency: string, description: string)

  /** The JSON body the webhook always answers with. */
  datatype WebhookReply = WebhookReply(status: string, reference: string, statusFromNotchpay: string)

  datatype WebhookStep = WebhookStep(db: TicketTable, sms: Option<SmsRequest>, reply: WebhookReply)

  /** `paiement_webhook`: the first ticket carrying `reference`, if any, takes
      the incoming status verbatim; nothing else in the table changes. An SMS
      is requested only for a found ticket and the status "complete", sent to
      the test recipient when one is configured and to the ticket's phone
      otherwise. */
  function PaiementWebhook(db: TicketTable, reference: string, status: string, now: Instant,
                           testRecipient: Option<string>): (r: WebhookStep)
    ensures r.reply == WebhookReply("received", reference, status)
    ensures |r.db| == |db|
    ensures FindByReference(db, reference).None? ==> r.db == db
    ensures FindByReference(db, reference).Some? ==>
              var k := FindByReference(db, reference).value;
              && r.db[k] == db[k].(status := status, updatedAt := now)
              && forall m :: 0 <= m < |db| && m != k ==> r.db[m] == db[m]
    ensures r.sms.Some? <==> FindByReference(db, reference).Some? && status == Complete
    ensures r.sms.Some? ==>
              var t := db[FindByReference(db, reference).value];
              r.sms.value == SmsRequest(if Truthy(testRecipient) then testRecipient.value else t.phone,
                                        t.notchpayReference, t.amount, t.currency, t.description)
  {
    var reply := WebhookReply("received", reference, status);
    match FindByReference(db, reference)
    case None => WebhookStep(db, None, reply)
    case Some(k) =>
      var ticket := db[k].(status := status, updatedAt := now);
      var sms :=
        if status == Complete then
          Some(SmsRequest(if Truthy(testRecipient) then testRecipient.value else ticket.phone,
                          ticket.notchpayReference, ticket.amount, ticket.currency, ticket.description))
        else None;
      WebhookStep(db[k := ticket], sms, reply)
  }

  /** The webhook never changes a ticket's id, so the primary key stays unique
      and every ticket is still found under its id. */
  lemma WebhookKeepsIds(db: TicketTable, reference: string, status: string, now: Instant,
                        testRecipient: Option<string>, id: int)
    requires UniqueIds(db)
    ensures var db' := PaiementWebhook(db, reference, status, now, testRecipient).db;
            UniqueIds(db') && FindById(db', id) == FindById(db, id)
  {
  }

  /** The two spellings: a ticket the webhook confirms with "complete" (the
      status that triggers the confirmation SMS) is then refused by
      cancellation with a 400, and the table is left unchanged. */
  lemma ConfirmedTicketCannotBeCancelled(db: TicketTable, reference: string, now: Instant,
                                         testRecipient: Option<string>, later: Instant)
    requires UniqueIds(db)
    requires FindByReference(db, reference).Some?
    ensures var step := PaiementWebhook(db, reference, Complete, now, testRecipient);
            var id := db[FindByReference(db, reference).value].id;
            && step.sms.Some?
            && AnnulerBillet(step.db, id, later) == Step(step.db, Err(NotCancellable(Complete)))
  {
  }

  /** A ticket whose status the webhook set to "completed" can be cancelled. */
  lemma CompletedTicketCanBeCancelled(db: TicketTable, reference: string, now: Instant,
                                      testRecipient: Option<string>, later: Instant)
    requires UniqueIds(db)
    requires FindByReference(db, reference).Some?
    ensures var step := PaiementWebhook(db, reference, Completed, now, testRecipient);
            var id := db[FindByReference(db, reference).value].id;
            && step.sms.None?
            && AnnulerBillet(step.db, id, later).reply.Ok?
  {
  }

  /** Cancellation is one-way: cancelling a cancelled ticket again is refused
      as "already cancelled". */
  lemma CancelTwiceRefused(db: TicketTable, ticketId: int, now: Instant, later: Instant)
    requires AnnulerBillet(db, ticketId, now).reply.Ok?
    ensures var db' := AnnulerBillet(db, ticketId, now).db;
            AnnulerBillet(db', ticketId, later) == Step(db', Err(AlreadyCancelled))
  {
  }
}
