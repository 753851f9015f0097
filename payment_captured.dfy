/** The handler for the payment provider's `payment.captured` event: it checks
    the payment's notes, then credits the user's balance and records the
    purchase in one database transaction. */
module PaymentCaptured {
  import opened Common
  import Decimal
  import Billing
  import opened Razorpay
  import opened Database

  /** Which write of the transaction the database rejects, if any. A rejected
      write rolls the whole transaction back. */
  datatype TxFault = NoFault | UpsertFailed | InsertFailed

  datatype CaptureError =
    | MissingUserId
    | MissingPackId
    | PackNotFound(packId: string)
    | TransactionFailed(fault: TxFault)

  /** The message of the error the handler throws for a rejected payment. A
      failed transaction rethrows the database's own error instead. */
  function ErrorMessage(e: CaptureError): (m: string)
    requires !e.TransactionFailed?
    ensures |m| > 0
    ensures e.PackNotFound? ==> |m| >= |e.packId| && m[|m| - |e.packId|..] == e.packId
  {
    match e
    case MissingUserId => "Missing 'userId' in Razorpay payment notes"
    case MissingPackId => "Missing 'packId' in Razorpay payment notes"
    case PackNotFound(packId) => "Purchase pack not found for packId: " + packId
  }

  /** A payment whose notes passed every check: whom to credit, with which pack. */
  datatype Capture = Capture(userId: UserId, pack: Billing.CreditsPack)

  /** The validation chain: user id first, then pack id, then the pack. */
  function ValidatePayment(payment: Payment): (r: Result<Capture, CaptureError>)
    ensures r == Failure(MissingUserId) <==> !Present(payment.notes.userId)
    ensures r == Failure(MissingPackId) <==>
      Present(payment.notes.userId) && !Present(payment.notes.packId)
    ensures r.Failure? && r.error.PackNotFound? <==>
      Present(payment.notes.userId) && Present(payment.notes.packId) &&
      Billing.GetCreditsPack(payment.notes.packId.value).None?
    ensures r.Failure? && r.error.PackNotFound? ==> r.error.packId == payment.notes.packId.value
    ensures r.Failure? ==> !r.error.TransactionFailed?
    ensures r.Success? ==>
      Present(payment.notes.userId) && Present(payment.notes.packId) &&
      r.value.userId == payment.notes.userId.value &&
      Billing.GetCreditsPack(payment.notes.packId.value) == Some(r.value.pack)
  {
    if !Present(payment.notes.userId) then Failure(MissingUserId)
    else if !Present(payment.notes.packId) then Failure(MissingPackId)
    else
      match Billing.GetCreditsPack(payment.notes.packId.value)
      case None => Failure(PackNotFound(payment.notes.packId.value))
      case Some(pack) => Success(Capture(payment.notes.userId.value, pack))
  }

  /** The balance table after the upsert: a user without a row gets one
      holding `credits`, a user with one has it incremented by `credits`. */
  function Credited(balances: map<UserId, int>, u: UserId, credits: int): (r: map<UserId, int>)
    ensures r.Keys == balances.Keys + {u}
    ensures u !in balances ==> r[u] == credits
    ensures u in balances ==> r[u] == balances[u] + credits
    ensures forall v :: v in balances && v != u ==> r[v] == balances[v]
  {
    balances[u := if u in balances then balances[u] + credits else credits]
  }

  /** `"<pack name> - <pack credits> credits"`. */
  function Description(pack: Billing.CreditsPack): string
  {
    pack.name + " - " + Decimal.RenderInt(pack.credits) + " credits"
  }

  /** The purchase row the handler inserts for a validated payment; `id` and
      `date` are the values the database assigns. */
  function PurchaseRecord(payment: Payment, c: Capture, id: string, date: int): (p: Purchase)
    ensures p.id == id && p.date == date
    ensures p.userId == c.userId
    ensures p.stripeId == payment.id && p.invoiceId == payment.invoiceId
    ensures p.amount == payment.amount && p.currency == payment.currency
    ensures p.description == Description(c.pack)
  {
    Purchase(id, c.userId, payment.id, payment.invoiceId, Description(c.pack),
      payment.amount, payment.currency, date)
  }

  /** A description starts with the pack's name and ends with " credits";
      between them stand " - " and the pack's credits rendered in decimal,
      digits that read back as the credits. */
  lemma DescriptionParts(pack: Billing.CreditsPack)
    requires pack.credits >= 0
    ensures var d := Description(pack);
      var n := |pack.name|;
      n + 3 < |d| - 8 &&
      d[..n] == pack.name &&
      d[n..n + 3] == " - " &&
      d[|d| - 8..] == " credits" &&
      d[n + 3..|d| - 8] == Decimal.Render(pack.credits) &&
      Decimal.Parse(d[n + 3..|d| - 8]) == pack.credits
  {
    var d := Description(pack);
    var n := |pack.name|;
    var digits := Decimal.Render(pack.credits);
    assert d == pack.name + " - " + digits + " credits";
    assert d[n + 3..|d| - 8] == digits;
    Decimal.ParseRender(pack.credits);
  }

  /** The descriptions the three catalog packs produce. */
  lemma CatalogDescriptions()
    ensures Description(Billing.SmallPack) == "Small Pack - 1000 credits"
    ensures Description(Billing.MediumPack) == "Medium Pack - 5000 credits"
    ensures Description(Billing.LargePack) == "Large Pack - 10000 credits"
  {
    assert Decimal.RenderInt(1000) == "1000";
    assert Decimal.RenderInt(5000) == "5000";
    assert Decimal.RenderInt(10000) == "10000";
  }

  /** Crediting a pack keeps every balance non-negative. */
  lemma CreditedKeepsValid(balances: map<UserId, int>, u: UserId, pack: Billing.CreditsPack)
    requires forall v :: v in balances ==> balances[v] >= 0
    requires pack in Billing.Catalog
    ensures Credited(balances, u, pack.credits)[u] > 0
    ensures forall v :: v in Credited(balances, u, pack.credits) ==> Credited(balances, u, pack.credits)[v] >= 0
  {
    Billing.PacksPositive(pack);
  }

  /** `handleRazorpayPaymentCaptured`. `purchaseId` and `now` stand for the
      id and date the database assigns to the new purchase row; `fault` says
      which write of the transaction the database rejects, if any. */
  method HandleRazorpayPaymentCaptured(
    db: Store, payment: Payment, purchaseId: string, now: int, fault: TxFault)
    returns (r: Outcome<CaptureError>)
    requires db.Valid()
    modifies db
    ensures db.Valid()
    ensures ValidatePayment(payment).Failure? ==>
      r == Fail(ValidatePayment(payment).error) &&
      db.balances == old(db.balances) && db.purchases == old(db.purchases)
    ensures ValidatePayment(payment).Success? && fault != NoFault ==>
      r == Fail(TransactionFailed(fault)) &&
      db.balances == old(db.balances) && db.purchases == old(db.purchases)
    ensures ValidatePayment(payment).Success? && fault == NoFault ==>
      var c := ValidatePayment(payment).value;
      r == Pass &&
      db.balances == Credited(old(db.balances), c.userId, c.pack.credits) &&
      db.purchases == old(db.purchases) + [PurchaseRecord(payment, c, purchaseId, now)]
  {
    var v := ValidatePayment(payment);
    if v.Failure? {
      return Fail(v.error);
    }
    var c := v.value;
    CreditedKeepsValid(db.balances, c.userId, c.pack);

    // Both writes go to the transaction first; the tables change only when
    // it commits.
    var balances := Credited(db.balances, c.userId, c.pack.credits);
    if fault == UpsertFailed {
      return Fail(TransactionFailed(fault));
    }
    var purchases := db.purchases + [PurchaseRecord(payment, c, purchaseId, now)];
    if fault == InsertFailed {
      return Fail(TransactionFailed(fault));
    }
    db.balances, db.purchases := balances, purchases;
    r := Pass;
  }
}
