/** The server actions behind the billing page: reading the balance, first-time
    setup, starting a purchase, listing purchases and fetching an invoice.
    `auth` is the signed-in user's id as the identity provider reports it. */
module BillingActions {
  import opened Common
  import Decimal
  import Billing
  import opened Razorpay
  import opened Database
  import PaymentCaptured

  datatype ActionError =
    | Unauthenticated
    | InvalidPackage
    | CannotCreateOrder
    | PurchaseNotFound
    | InvoiceNotAssociated
    | InvoiceFetchFailed

  /** The message each action error is thrown with. */
  function ErrorMessage(e: ActionError): (m: string)
    ensures |m| > 0
  {
    match e
    case Unauthenticated => "Unauthenticated"
    case InvalidPackage => "Invalid package"
    case CannotCreateOrder => "Cannot create Razorpay order"
    case PurchaseNotFound => "Purchase not found"
    case InvoiceNotAssociated =>
      "Invoice not associated with this purchase. This may be an older transaction or a webhook issue."
    case InvoiceFetchFailed => "Could not retrieve invoice from Razorpay."
  }

  /** The balance a new user starts with. */
  const StarterCredits := 200

  /** What `getAvailableCredits` returns for a user without a balance row. */
  const NoBalance := -1

  /** The framework's redirect, which ends a server action. */
  datatype Redirect = Redirect(path: string)

  /** The caller can tell every action error from its message alone. */
  lemma ErrorMessagesDistinct(a: ActionError, b: ActionError)
    requires ErrorMessage(a) == ErrorMessage(b)
    ensures a == b
  {
  }

  // ---------------------------------------------------------------- balance

  /** `getAvailableCredits`. Since balances are never negative, the sentinel
      -1 is returned exactly when the user has no balance row. */
  function GetAvailableCredits(db: Store, auth: Option<UserId>): (r: Result<int, ActionError>)
    reads db
    ensures r == Failure(Unauthenticated) <==> !Present(auth)
    ensures Present(auth) && auth.value in db.balances ==> r == Success(db.balances[auth.value])
    ensures Present(auth) && auth.value !in db.balances ==> r == Success(NoBalance)
    ensures db.Valid() && Present(auth) ==> (r == Success(NoBalance) <==> auth.value !in db.balances)
  {
    if !Present(auth) then Failure(Unauthenticated)
    else if auth.value !in db.balances then Success(NoBalance)
    else Success(db.balances[auth.value])
  }

  /** The balance table after first-time setup of `u`: a row with the
      starter credits if there was none, otherwise untouched. */
  function WithStarterCredits(balances: map<UserId, int>, u: UserId): (r: map<UserId, int>)
    ensures r.Keys == balances.Keys + {u}
    ensures u in balances ==> r == balances
    ensures u !in balances ==> r[u] == StarterCredits
    ensures forall v :: v in balances ==> r[v] == balances[v]
  {
    if u in balances then balances else balances[u := StarterCredits]
  }

  /** Setting up a user twice is the same as setting them up once. */
  lemma SetupIdempotent(balances: map<UserId, int>, u: UserId)
    ensures WithStarterCredits(WithStarterCredits(balances, u), u) == WithStarterCredits(balances, u)
  {
  }

  /** `setupUser`: creates the starter balance if the user has none, then
      redirects to the home page. */
  method SetupUser(db: Store, auth: Option<UserId>) returns (r: Result<Redirect, ActionError>)
    requires db.Valid()
    modifies db
    ensures db.Valid()
    ensures db.purchases == old(db.purchases)
    ensures !Present(auth) ==> r == Failure(Unauthenticated) && db.balances == old(db.balances)
    ensures Present(auth) ==>
      r == Success(Redirect("/home")) &&
      db.balances == WithStarterCredits(old(db.balances), auth.value)
  {
    if !Present(auth) {
      return Failure(Unauthenticated);
    }
    var userId := auth.value;
    if userId !in db.balances {
      db.balances := db.balances[userId := StarterCredits];
    }
    r := Success(Redirect("/home"));
  }

  /** A signed-in user who has been set up never sees the no-balance
      sentinel again. */
  method SetupThenRead(db: Store, userId: UserId) returns (credits: Result<int, ActionError>)
    requires db.Valid()
    requires userId != ""
    modifies db
    ensures credits.Success? && credits.value >= 0
    ensures userId !in old(db.balances) ==> credits == Success(StarterCredits)
  {
    var _ := SetupUser(db, Some(userId));
    credits := GetAvailableCredits(db, Some(userId));
  }

  // --------------------------------------------------------------- purchase

  const ReceiptPrefix := "receipt_order_"

  /** The receipt reference of an order created at `now` milliseconds: the
      prefix followed by digits that read back as `now`. */
  function Receipt(now: nat): (r: string)
    ensures |ReceiptPrefix| < |r| && r[..|ReceiptPrefix|] == ReceiptPrefix
    ensures forall i :: |ReceiptPrefix| <= i < |r| ==> Decimal.IsDigit(r[i])
    ensures Decimal.Parse(r[|ReceiptPrefix|..]) == now
    ensures r[|ReceiptPrefix|..] == Decimal.Render(now)
  {
    Decimal.ParseRender(now);
    assert ("receipt_order_" + Decimal.Render(now))[|ReceiptPrefix|..] == Decimal.Render(now);
    "receipt_order_" + Decimal.Render(now)
  }

  /** Orders created at different instants carry different receipts. */
  lemma ReceiptsDistinct(t1: nat, t2: nat)
    requires t1 != t2
    ensures Receipt(t1) != Receipt(t2)
  {
  }

  /** The checks of `purchaseCredits` and the order options it builds. */
  function OrderOptionsFor(auth: Option<UserId>, packId: string, now: nat): (r: Result<OrderOptions, ActionError>)
    ensures r == Failure(Unauthenticated) <==> !Present(auth)
    ensures r == Failure(InvalidPackage) <==> Present(auth) && Billing.GetCreditsPack(packId).None?
    ensures r.Success? <==> Present(auth) && Billing.GetCreditsPack(packId).Some?
    ensures r.Success? ==>
      Billing.GetCreditsPack(packId).Some? &&
      r.value.amount == Billing.GetCreditsPack(packId).value.price &&
      r.value.currency == "INR" &&
      r.value.receipt == Receipt(now) &&
      r.value.notes == Notes(auth, Some(packId))
  {
    if !Present(auth) then Failure(Unauthenticated)
    else
      match Billing.GetCreditsPack(packId)
      case None => Failure(InvalidPackage)
      case Some(pack) => Success(OrderOptions(pack.price, "INR", Receipt(now), Notes(auth, Some(packId))))
  }

  /** `purchaseCredits`. `create` is the payment provider's order creation,
      called only with options that passed every check. */
  function PurchaseCredits(
    auth: Option<UserId>, packId: string, now: nat, create: OrderOptions -> OrderCreation)
    : (r: Result<Order, ActionError>)
    ensures OrderOptionsFor(auth, packId, now).Failure? ==>
      r == Failure(OrderOptionsFor(auth, packId, now).error)
    ensures OrderOptionsFor(auth, packId, now).Success? ==>
      var created := create(OrderOptionsFor(auth, packId, now).value);
      (created.CreateFailed? ==> r == Failure(CannotCreateOrder)) &&
      (created.Created? ==> r == Success(created.order))
    ensures r.Success? <==>
      Present(auth) && Billing.GetCreditsPack(packId).Some? &&
      create(OrderOptionsFor(auth, packId, now).value).Created?
  {
    match OrderOptionsFor(auth, packId, now)
    case Failure(e) => Failure(e)
    case Success(options) =>
      match create(options)
      case Created(order) => Success(order)
      case CreateFailed => Failure(CannotCreateOrder)
  }

  /** An order's notes, echoed back on its captured payment, pass the
      payment handler's checks and credit the ordering user with the pack
      whose price was charged. */
  lemma OrderThenCapture(
    auth: Option<UserId>, packId: string, now: nat, paymentId: string, invoiceId: Option<string>)
    requires OrderOptionsFor(auth, packId, now).Success?
    ensures
      var options := OrderOptionsFor(auth, packId, now).value;
      var payment := Payment(paymentId, options.amount, options.currency, invoiceId, options.notes);
      var v := PaymentCaptured.ValidatePayment(payment);
      v.Success? && v.value.userId == auth.value &&
      v.value.pack.id.Value() == packId && v.value.pack.price == payment.amount
  {
  }

  // -------------------------------------------------------------- purchases

  /** The purchases are ordered newest first. */
  predicate NewestFirst(s: seq<Purchase>)
  {
    forall i, j :: 0 <= i < j < |s| ==> s[i].date >= s[j].date
  }

  /** The purchases of `u`, in table order, each as often as in the table. */
  function OwnedBy(ps: seq<Purchase>, u: UserId): (r: seq<Purchase>)
    ensures forall p :: multiset(r)[p] == if p.userId == u then multiset(ps)[p] else 0
  {
    if ps == [] then []
    else
      assert ps == [ps[0]] + ps[1..];
      (if ps[0].userId == u then [ps[0]] else []) + OwnedBy(ps[1..], u)
  }

  /** Putting a purchase no older than any other in front keeps a list
      newest first. */
  lemma ConsNewestFirst(x: Purchase, s: seq<Purchase>)
    requires NewestFirst(s)
    requires forall y :: y in s ==> y.date <= x.date
    ensures NewestFirst([x] + s)
  {
    var t := [x] + s;
    forall i, j | 0 <= i < j < |t| ensures t[i].date >= t[j].date {
      assert t[j] == s[j - 1];
      if i > 0 { assert t[i] == s[i - 1]; }
    }
  }

  /** The head of a newest-first list is no older than anything after it. */
  lemma HeadIsNewest(s: seq<Purchase>, x: Purchase)
    requires NewestFirst(s) && |s| > 0
    requires x in s[1..]
    ensures x.date <= s[0].date
  {
    var k :| 0 <= k < |s[1..]| && s[1..][k] == x;
    assert s[k + 1] == x;
  }

  /** Putting `p` in front of a newest-first list whose head is no newer
      keeps it newest first. */
  lemma InsertInFront(p: Purchase, s: seq<Purchase>)
    requires NewestFirst(s)
    requires s == [] || p.date >= s[0].date
    ensures NewestFirst([p] + s)
  {
    forall y | y in s ensures y.date <= p.date {
      if y != s[0] { HeadIsNewest(s, y); }
    }
    ConsNewestFirst(p, s);
  }

  /** Keeping the newer head `s[0]` in front of `p` inserted into the rest
      keeps the list newest first. */
  lemma InsertBehindHead(p: Purchase, s: seq<Purchase>, rest: seq<Purchase>)
    requires NewestFirst(s) && |s| > 0 && p.date < s[0].date
    requires NewestFirst(rest)
    requires multiset(rest) == multiset(s[1..]) + multiset{p}
    ensures NewestFirst([s[0]] + rest)
  {
    forall x | x in rest ensures x.date <= s[0].date {
      assert x in multiset(rest);
      if x != p {
        assert x in multiset(s[1..]);
        HeadIsNewest(s, x);
      }
    }
    ConsNewestFirst(s[0], rest);
  }

  /** Inserts `p` into a newest-first list, keeping it newest first. */
  function InsertByDate(p: Purchase, s: seq<Purchase>): (r: seq<Purchase>)
    requires NewestFirst(s)
    ensures NewestFirst(r)
    ensures multiset(r) == multiset(s) + multiset{p}
  {
    if s == [] || p.date >= s[0].date then
      InsertInFront(p, s);
      [p] + s
    else
      var rest := InsertByDate(p, s[1..]);
      InsertBehindHead(p, s, rest);
      assert s == [s[0]] + s[1..];
      [s[0]] + rest
  }

  /** Sorts by date, newest first (the database's `orderBy: date desc`). */
  function SortNewestFirst(s: seq<Purchase>): (r: seq<Purchase>)
    ensures NewestFirst(r)
    ensures multiset(r) == multiset(s)
  {
    if s == [] then []
    else
      assert s == [s[0]] + s[1..];
      InsertByDate(s[0], SortNewestFirst(s[1..]))
  }

  /** `getUserPurchases`: exactly the caller's purchases, newest first. */
  function GetUserPurchases(db: Store, auth: Option<UserId>): (r: Result<seq<Purchase>, ActionError>)
    reads db
    ensures r == Failure(Unauthenticated) <==> !Present(auth)
    ensures Present(auth) ==>
      r.Success? && NewestFirst(r.value) &&
      forall p :: multiset(r.value)[p] == if p.userId == auth.value then multiset(db.purchases)[p] else 0
  {
    if !Present(auth) then Failure(Unauthenticated)
    else Success(SortNewestFirst(OwnedBy(db.purchases, auth.value)))
  }

  // ---------------------------------------------------------------- invoice

  /** The database lookup of `downloadInvoice`: the purchase with this id,
      provided it belongs to `u`. */
  function FindPurchase(ps: seq<Purchase>, u: UserId, id: string): (r: Option<Purchase>)
    ensures r.None? <==> forall i :: 0 <= i < |ps| ==> !(ps[i].id == id && ps[i].userId == u)
    ensures r.Some? ==> r.value in ps && r.value.id == id && r.value.userId == u
  {
    if ps == [] then None
    else if ps[0].id == id && ps[0].userId == u then Some(ps[0])
    else
      var r := FindPurchase(ps[1..], u, id);
      assert forall i :: 1 <= i < |ps| ==> ps[i] == ps[1..][i - 1];
      r
  }

  /** The checks `downloadInvoice` makes before it asks the payment provider
      for anything: it returns the invoice id to fetch. */
  function InvoiceToFetch(db: Store, auth: Option<UserId>, id: string): (r: Result<string, ActionError>)
    reads db
    ensures r == Failure(Unauthenticated) <==> !Present(auth)
    ensures r == Failure(PurchaseNotFound) <==>
      Present(auth) && forall i :: 0 <= i < |db.purchases| ==>
        !(db.purchases[i].id == id && db.purchases[i].userId == auth.value)
    ensures r == Failure(InvoiceNotAssociated) ==>
      Present(auth) &&
      exists p :: p in db.purchases && p.id == id && p.userId == auth.value && !Present(p.invoiceId)
    ensures r.Success? ==>
      Present(auth) && r.value != "" &&
      exists p :: p in db.purchases && p.id == id && p.userId == auth.value && p.invoiceId == Some(r.value)
    ensures r == Failure(InvoiceNotAssociated) <==>
      Present(auth) && FindPurchase(db.purchases, auth.value, id).Some? &&
      !Present(FindPurchase(db.purchases, auth.value, id).value.invoiceId)
    ensures Present(auth) && FindPurchase(db.purchases, auth.value, id).Some? ==>
      var p := FindPurchase(db.purchases, auth.value, id).value;
      r == if Present(p.invoiceId) then Success(p.invoiceId.value) else Failure(InvoiceNotAssociated)
  {
    if !Present(auth) then Failure(Unauthenticated)
    else
      match FindPurchase(db.purchases, auth.value, id)
      case None => Failure(PurchaseNotFound)
      case Some(purchase) =>
        if !Present(purchase.invoiceId) then Failure(InvoiceNotAssociated)
        else Success(purchase.invoiceId.value)
  }

  /** `downloadInvoice`. `fetch` is the payment provider's invoice lookup. A
      fetched invoice without a short url is rejected inside the same `try`
      whose `catch` turns every failure into one message. */
  function DownloadInvoice(
    db: Store, auth: Option<UserId>, id: string, fetch: string -> InvoiceFetch)
    : (r: Result<string, ActionError>)
    reads db
    ensures InvoiceToFetch(db, auth, id).Failure? ==> r == Failure(InvoiceToFetch(db, auth, id).error)
    ensures InvoiceToFetch(db, auth, id).Success? ==>
      var fetched := fetch(InvoiceToFetch(db, auth, id).value);
      (r.Success? <==> fetched.Fetched? && Present(fetched.shortUrl)) &&
      (r.Success? ==> r.value == fetched.shortUrl.value) &&
      (r.Failure? ==> r.error == InvoiceFetchFailed)
  {
    match InvoiceToFetch(db, auth, id)
    case Failure(e) => Failure(e)
    case Success(invoiceId) =>
      match fetch(invoiceId)
      case FetchFailed => Failure(InvoiceFetchFailed)
      case Fetched(shortUrl) =>
        if !Present(shortUrl) then Failure(InvoiceFetchFailed) else Success(shortUrl.value)
  }
}
