# Credit ledger, pack catalog and cron sweep of autoscrape

A Dafny model of the billing and scheduling core of autoscrape, a service for
building and running browser-scraping workflows that users pay for with
credits:

- the **credit pack catalog** (three fixed packs and a lookup by id);
- the **payment-captured handler**, which checks a captured payment's notes and
  then, in one database transaction, credits the user's balance and records the
  purchase;
- the **billing server actions**: reading the balance (with its `-1` sentinel),
  first-time setup with 200 free credits, building the order for a purchase,
  listing the caller's purchases newest first, and the checks made before an
  invoice is fetched;
- the **cron sweep**, which selects the published, scheduled workflows whose
  next run time has passed and triggers each one, ignoring failed triggers.

Files:

- `common.dfy`: modules `Common` (`Option`, `Result`, `Outcome`, and `Present`,
  the JavaScript truthiness of an optional string) and `Decimal` (`${n}`
  rendering of numbers, with its inverse).
- `billing.dfy`: module `Billing`.
- `razorpay.dfy`: module `Razorpay`, the payment provider's payment, order and
  invoice shapes.
- `database.dfy`: module `Database`, the class `Store` holding the balance
  table (`map<UserId, int>`) and the purchase table (`seq<Purchase>`).
- `payment_captured.dfy`: module `PaymentCaptured`.
- `billing_actions.dfy`: module `BillingActions`.
- `cron_sweep.dfy`: module `CronSweep`.

Everything that reaches outside the program is a parameter. The signed-in user
is an `Option<UserId>`. The clock is a number (`now`). The database's choice of
id and date for a new purchase row is a parameter. So is a database rejection
inside the payment transaction (`TxFault`). The provider's order creation and
invoice fetch are functions from request to outcome, and the network answering
a trigger is a function from request to response.

Some behaviour follows the code closely:

- `!userId` and `!packId` reject `undefined`, `null` and the empty string alike
  (`Present`).
- A pack id is an arbitrary string until the lookup finds it.
- The cron query's `cron: { not: null }` accepts an empty schedule.
- A workflow whose `nextRunAt` is null is never due.
- In `downloadInvoice`, an invoice without a short url throws inside the same
  `try` whose `catch` replaces every error. The caller therefore sees "Could not
  retrieve invoice from Razorpay.", never "Invoice URL not available.".

## Model

| member | source | states |
|---|---|---|
| `Decimal.Render` | lib/razorpay/handleCheckoutSessionCompleted.ts:64 | `${n}` of a non-negative integer below 10^21 is a non-empty string of digits that starts with `0` only for zero |
| `Decimal.ParseRender` | lib/razorpay/handleCheckoutSessionCompleted.ts:64 | reading the rendered digits back gives the number: rendering loses nothing |
| `Decimal.RenderInjective` | actions/billings.ts:71 | distinct numbers render as distinct strings |
| `Billing.Find` | lib/billing.ts:44 | `find` returns nothing exactly when no pack has the id; otherwise it returns the first pack in the table whose id is the argument |
| `Billing.GetCreditsPack` | lib/billing.ts:43-45 | a returned pack is a catalog entry whose id is the argument; nothing is returned exactly when the string is not `SMALL`, `MEDIUM` or `LARGE` (an arbitrary string cast to `PackId`) |
| `Billing.ValueInjective` | lib/billing.ts:1-5 | the three enum members have distinct string values |
| `Billing.EachPackIdListedOnce` | lib/billing.ts:16-41 | every pack id has an entry in the catalog, and only one |
| `Billing.LookupByEnum` | lib/billing.ts:43-45 | looking up any pack id's own value always finds the pack with that id |
| `Billing.CatalogValues` | lib/billing.ts:16-41 | SMALL is 1000 credits for 100000, MEDIUM 5000 for 400000, LARGE 10000 for 600000 |
| `Billing.PacksPositive` | lib/billing.ts:16-41 | every catalog pack has strictly positive credits and price |
| `PaymentCaptured.ErrorMessage` | lib/razorpay/handleCheckoutSessionCompleted.ts:28-40 | fixes the message text of each validation error only: every message is non-empty, and the unknown-pack message ends with the pack id that failed the lookup |
| `PaymentCaptured.ValidatePayment` | lib/razorpay/handleCheckoutSessionCompleted.ts:25-40 | a missing user id is reported first, and it is reported exactly when the user id is missing. A missing pack id is reported exactly when the user id is present and the pack id is not. An unknown pack is reported, with its id, exactly when both are present and the lookup fails. Success names the note's user and the pack the lookup finds |
| `PaymentCaptured.Credited` | lib/razorpay/handleCheckoutSessionCompleted.ts:44-57 | after the upsert the user has a row holding the pack's credits if they had none, or the old balance plus the credits. Every other user's balance is unchanged and no other row appears |
| `PaymentCaptured.PurchaseRecord` | lib/razorpay/handleCheckoutSessionCompleted.ts:59-69 | the inserted row carries the database-assigned id and date, the user, `stripeId` = payment id, `invoiceId` = the payment's invoice id, `"<name> - <credits> credits"`, and the payment's amount and currency |
| `PaymentCaptured.DescriptionParts` | lib/razorpay/handleCheckoutSessionCompleted.ts:64 | the purchase description `"<name> - <credits> credits"` starts with the pack's name, continues with `" - "`, ends with `" credits"`, and what stands between is exactly `Decimal.Render` of the pack's credits (digits, no leading zero), which reads back as the credits |
| `PaymentCaptured.CatalogDescriptions` | lib/razorpay/handleCheckoutSessionCompleted.ts:64 | the three packs are described as "Small Pack - 1000 credits", "Medium Pack - 5000 credits" and "Large Pack - 10000 credits" |
| `PaymentCaptured.CreditedKeepsValid` | lib/razorpay/handleCheckoutSessionCompleted.ts:44-57 | crediting a catalog pack leaves every balance non-negative and the credited user's balance positive |
| `PaymentCaptured.HandleRazorpayPaymentCaptured` | lib/razorpay/handleCheckoutSessionCompleted.ts:22-83 | a rejected payment fails with its validation error and changes nothing. A database fault inside the transaction is rethrown and changes nothing: neither the balance nor the purchase is written. Otherwise the balance table is `Credited` and exactly one `PurchaseRecord` is appended. Non-negative balances stay so |
| `BillingActions.ErrorMessage` | actions/billings.ts:13-141 | fixes the message text of each action error only: every message is non-empty |
| `BillingActions.ErrorMessagesDistinct` | actions/billings.ts:14-140 | no two action errors share a message, so the caller can tell them apart by text |
| `BillingActions.GetAvailableCredits` | actions/billings.ts:10-26 | fails with Unauthenticated exactly when there is no user; returns the user's balance when they have a row and -1 when they have none; with non-negative balances, -1 is returned exactly when they have none |
| `BillingActions.WithStarterCredits` | actions/billings.ts:36-49 | a user without a row gets one holding 200 credits; an existing row, and every other row, is unchanged |
| `BillingActions.SetupIdempotent` | actions/billings.ts:36-49 | setting a user up twice leaves the same balances as setting them up once |
| `BillingActions.SetupUser` | actions/billings.ts:29-52 | without a user it fails with Unauthenticated and changes nothing. Otherwise the balances become `WithStarterCredits` and the action ends in a redirect to `/home`. Purchases are untouched |
| `BillingActions.SetupThenRead` | actions/billings.ts:10-52 | after setup, reading the balance gives a non-negative number and never the -1 sentinel; for a new user it is 200 |
| `BillingActions.Receipt` | actions/billings.ts:71 | the receipt is `receipt_order_` followed by exactly `Decimal.Render` of the timestamp: at least one digit, only digits, no leading zero, reading back as the timestamp |
| `BillingActions.ReceiptsDistinct` | actions/billings.ts:71 | orders created at different times carry different receipts |
| `BillingActions.OrderOptionsFor` | actions/billings.ts:55-76 | fails with Unauthenticated exactly when there is no user. It fails with Invalid package exactly when a signed-in user names an unknown pack. It succeeds exactly when a signed-in user names a catalog pack, and then the options carry the pack's price, currency INR, the receipt for `now`, and notes with the caller's user id and the pack id as given |
| `BillingActions.PurchaseCredits` | actions/billings.ts:55-85 | a failed check is returned before any order is created. Otherwise the order is created from exactly those options, and a rejected creation becomes "Cannot create Razorpay order". It succeeds exactly when a signed-in user names a catalog pack and the provider creates the order |
| `BillingActions.OrderThenCapture` | actions/billings.ts:68-76 | a payment that echoes an order's notes passes the handler's checks and credits the ordering user with the pack whose price the order charged |
| `BillingActions.OwnedBy` | actions/billings.ts:95-98 | the caller's purchases: every purchase of the user, as often as in the table, and no other |
| `BillingActions.InsertByDate` | actions/billings.ts:99-101 | inserting into a newest-first list keeps it newest first and adds exactly that purchase |
| `BillingActions.SortNewestFirst` | actions/billings.ts:99-101 | the result is newest first and a permutation of the input |
| `BillingActions.GetUserPurchases` | actions/billings.ts:88-103 | fails with Unauthenticated exactly when there is no user. Otherwise it returns the caller's purchases, each as often as in the table, none of anyone else's, ordered by date descending |
| `BillingActions.FindPurchase` | actions/billings.ts:115-120 | finds nothing exactly when no purchase has both the id and the user; what it finds has both |
| `BillingActions.InvoiceToFetch` | actions/billings.ts:106-130 | fails with Unauthenticated exactly when there is no user. It fails with Purchase not found exactly when no purchase matches both the caller and the id. For a found purchase it fails with the invoice-not-associated error exactly when the purchase's invoice id is missing or empty, and otherwise succeeds with that invoice id |
| `BillingActions.DownloadInvoice` | actions/billings.ts:106-143 | every failed check is returned unchanged. Otherwise the invoice id is fetched. The result is its short url when the fetch returns one, and "Could not retrieve invoice from Razorpay." when the fetch throws or the url is missing |
| `CronSweep.IsDue` | app/api/workflows/cron/route.ts:13-19 | a draft, an unscheduled workflow, one without a next run time, or one whose next run time is after `now` is not due; a published, scheduled workflow whose next run time is at or before `now` is |
| `CronSweep.DueStaysDue` | app/api/workflows/cron/route.ts:13-19 | a workflow due at some instant is due at every later one, as long as its row is unchanged |
| `CronSweep.DueWorkflows` | app/api/workflows/cron/route.ts:9-20 | a workflow is selected iff it is PUBLISHED, has a non-null cron and a `nextRunAt` no later than `now`. Each selected row appears as often as in the table |
| `CronSweep.DueWorkflowsAppend` | app/api/workflows/cron/route.ts:9-23 | selection distributes over concatenation of the table, so the selected workflows keep the query's order |
| `CronSweep.DueIsInTable` | app/api/workflows/cron/route.ts:9-20 | only rows of the table are selected |
| `CronSweep.DueIdsUnique` | app/api/workflows/cron/route.ts:21-23 | if ids are unique in the table, they are unique among the selected workflows, so no workflow is triggered twice in a sweep |
| `CronSweep.TriggerRequest` | app/api/workflows/cron/route.ts:28-37 | the trigger url is `api/workflows/execute?workflowId=` followed by exactly the workflow's id, and the authorization header is `Bearer ` followed by the API secret |
| `CronSweep.TriggerUrlInjective` | app/api/workflows/cron/route.ts:28-30 | different workflows are triggered through different urls |
| `CronSweep.Classify` | app/api/workflows/cron/route.ts:38-48 | a trigger is accepted iff the endpoint answers 2xx. Any other status is recorded with that status, and a thrown error is recorded as an error |
| `CronSweep.TriggerWorkflow` | app/api/workflows/cron/route.ts:27-49 | sends the workflow's request with the bearer credential and returns normally whatever the response, recording its outcome |
| `CronSweep.Get` | app/api/workflows/cron/route.ts:6-25 | triggers exactly the selected workflows, one call each, in query order. Every later trigger still happens whatever the earlier ones returned or threw. `workflowsToRun` is the number selected, whatever the outcomes. The workflow table is only read |

## Left out

- Browser automation, the scrape and headless routes, and the executor for
  launching a browser: they are thin wrappers over browser I/O.
- The workflow phase runner and its execution environment are not part of this
  model.
- The Stripe webhook route: it only logs a hard-coded event.
- Build configuration and UI components.
- Logging (`console.log`, `console.error`) is not modelled.
- The payment provider's price ids are not modelled, because they are read from
  the environment. The same goes for the base url that `getAppUrl` prefixes.
  `API_SECRET` is a parameter.
- The database schema is not part of this model. The model has no uniqueness
  constraints beyond one balance row per user. In particular, nothing stops a
  replayed `payment.captured` event from crediting the user a second time; a
  database rejection of the purchase row is modelled only as an opaque
  `TxFault`.
- `PaymentCaptured.HandleRazorpayPaymentCaptured`: a failed transaction is
  reported as `TransactionFailed(fault)`, not with the database's own error
  object.
- `BillingActions.SetupUser`: a database failure in the lookup or the create is
  not modelled. The race between two concurrent first-time setups is not
  modelled either, because concurrency is out of scope.
- `BillingActions.FindPurchase`: it returns the first row with both the id and
  the user. This equals the database's unique lookup when purchase ids are
  unique, which the schema guarantees but this model does not state.
- `CronSweep.Get`: the query's row order is modelled as table order, since the
  query has no `orderBy`. The trigger is modelled as awaited, one after the
  other, as the loop does.
- Concurrency between sweeps and runs is not modelled.
- `Decimal.Render`: JavaScript renders integral numbers of 10^21 and more in
  exponent form (`1e+21`), and numbers beyond 2^53 lose precision; the model
  renders every natural number in plain digits. Credit counts and timestamps
  stay far below both bounds.
