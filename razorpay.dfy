/** The shapes the payment provider exchanges with the application. The
    provider's SDK calls themselves are not modelled: where the application
    calls it, the model takes the call's outcome as a parameter. */
module Razorpay {
  import opened Common

  /** The `notes` attached to an order and echoed back on its payment. Keys
      other than `userId` and `packId` are not part of this model. */
  datatype Notes = Notes(userId: Option<string>, packId: Option<string>)

  /** The `payment.captured` entity: amount in the currency's smallest unit
      and an optional invoice id. */
  datatype Payment = Payment(
    id: string,
    amount: int,
    currency: string,
    invoiceId: Option<string>,
    notes: Notes)

  /** The options passed when an order is created. */
  datatype OrderOptions = OrderOptions(
    amount: int,
    currency: string,
    receipt: string,
    notes: Notes)

  datatype Order = Order(id: string)

  /** What `orders.create` does: returns an order or throws. */
  datatype OrderCreation = Created(order: Order) | CreateFailed

  /** What `invoices.fetch` does: returns an invoice, whose short url may be
      missing, or throws. */
  datatype InvoiceFetch = Fetched(shortUrl: Option<string>) | FetchFailed
}
