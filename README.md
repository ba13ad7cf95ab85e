# ChainStore purchase lifecycle in Dafny

This project models how the ChainStore template marketplace keeps its
`purchases` table, and proves properties of that model. A purchase row goes
through three server handlers:

- **Order creation** (`POST /api/orders`) either rejects the request, reuses a
  pending order, re-arms an existing row with a fresh memo, or inserts a new
  pending row. It answers with a HotPay payment URL.
- **Polling verification** (`GET /api/orders/verify`) looks up the caller's
  order by memo and moves it according to what the HotPay API reports.
- **The HotPay webhook** (`POST /api/hotpay/webhook`) overwrites the status of
  the row whose id the payload names.

The project also models the client status page (`checkStatus` and its `poll`
loop), the navbar's avatar initials and the store page's category list.

Supabase, the auth session and the HotPay HTTP API are replaced by values:

- the table is a `map` from row id to row, held by the class `PurchaseStore.Store`;
- the session is an `Option<UserId>`;
- the gateway's answer is a `GatewayResult`;
- the parsed request body is a record.

Each handler is one atomic step. Its specification function (`Orders.Create`,
`OrdersVerify.Verify`, `HotpayWebhook.Webhook`) returns the new table and
the response. The matching `Store` method performs the same early returns
and the single update or insert in place, and its `ensures` ties the new
state to that function. The lemmas beside each function state what the
source promises.

Modelling conventions:

- A Supabase `.single()` lookup (`PurchaseTable.Single`) yields a row only when
  the read succeeds and exactly one row matches. Its `readOk` flag says
  whether the read succeeds. With duplicate (user, template) rows, creation
  therefore falls through to an insert.
- Every database write takes a `writeOk` flag, because the code ignores most
  write results. The insert and the verify SUCCESS update are the two writes
  whose result it checks. Order creation bundles its three flags (template
  read, purchase lookup, write) in the record `Orders.Db`.
- `crypto.randomUUID()` is the parameter `freshMemo`. The property that memos
  stay distinct assumes that the fresh memo is not already in the table.
- The database-assigned id and `purchased_at` are the parameters `newId` and
  `now`. If `newId` is already taken, the insert fails.
- `JavaScript` truthiness of an optional string means present and non-empty
  (`Types.Truthy`). `x || null` is `Types.OrNull`.

The code behaves as follows, and the model keeps this:

- The webhook is keyed by `order_id`, the row id, not by memo.
- The webhook has no shared-secret check and no 404 for an unknown id.
- The webhook has no guard on completed rows, so a completed row can be
  overwritten to `failed`.
- The webhook's vocabulary is `"completed"` / `"success"`. The verify route's
  `"SUCCESS"` therefore means `failed` in the webhook.
- The status page has no grace window. The first lookup miss shows
  `not_found` and ends that polling run.
- Re-arming a row refreshes its amount to the current price. Reusing a
  pending row does not refresh the amount.
- The verify route does not stop at `failed`. A failed row can still become
  `completed` on a later gateway SUCCESS.
- None of the three purchases lookups (`app/api/orders/route.ts:50-55`,
  `app/api/orders/verify/route.ts:29-34`, `app/payment/status/page.tsx:25-30`)
  looks at the read's error, so a failed read is answered like a missing row.
  The verify lookup gives 404. The status page shows `not_found` and ends
  that polling run. Order creation inserts a second row for a pair that
  already has one, and from then on the pair's lookup finds nothing, so a
  completed purchase of it no longer gives 409. The template read does test
  its error, and answers 404 either way.

## Model

| member | source | states |
|---|---|---|
| PurchaseTable.Single | app/api/orders/route.ts:50-55 | `.single()` yields a row exactly when the read succeeds and one row matches the filter, and that row is the one matching row; a failed read yields nothing |
| PurchaseTable.SingleIsStored | app/api/orders/verify/route.ts:29-34 | when rows are kept under their own ids, the row a lookup returns is the one stored under its id |
| PurchaseTable.SetStatus | app/api/orders/verify/route.ts:88-94 | an update by id changes only that row's payment_status and transaction_id; a missing id changes nothing |
| PurchaseTable.Rearm | app/api/orders/route.ts:89-96 | an update by id changes only that row's memo, status (to pending) and amount |
| PurchaseTable.RearmKeepsMemosDistinct | app/api/orders/route.ts:85-96 | giving one row a memo that no row holds keeps memos distinct |
| PurchaseTable.InsertKeepsMemosDistinct | app/api/orders/route.ts:112-121 | inserting a row under a new id with a fresh memo keeps memos distinct |
| PurchaseTable.SetStatusKeepsMemos | app/api/orders/verify/route.ts:88-94 | a status update leaves every row's id and memo as they were |
| Orders.BuildPaymentUrl | app/api/orders/route.ts:151-171 | the base falls back to `https://pay.hot-labs.org`; the parameters are item_id, amount, memo, webhook_url, redirect_url in that order; item_id falls back from the template's id to the env value to ""; memo is the memo; redirect_url is appUrl + "/payment/status?memo=" + memo |
| Orders.PaymentUrlMemoRoundTrip | app/api/orders/route.ts:160-170 | the rendered URL starts with base + "/payment?", and a reader who parses the query finds the memo the order was given |
| Orders.Create | app/api/orders/route.ts:6-149 | an error response leaves the table as it was; no row is removed; every row other than the returned order's is unchanged, and a row that is written is pending with the returned memo; every success response's URL carries the returned memo as its memo parameter and in its redirect URL |
| Orders.ActiveTemplate | app/api/orders/route.ts:35-47 | a read that succeeds finds the catalog's template with that id exactly when it is active; what it finds is that catalog entry; a failed read finds nothing |
| Orders.CreateGuards | app/api/orders/route.ts:14-47 | no session gives 401, a falsy template_id gives 400, a failed template read or an unknown or inactive template gives 404; each checked in that order and none touching the purchases table |
| Orders.CreateAlreadyPurchased | app/api/orders/route.ts:57-63 | an existing completed purchase for the pair gives 409 and the table is unchanged |
| Orders.CreateReusesPending | app/api/orders/route.ts:66-81 | a pending purchase with a memo returns the same order id and memo with no write (amount not refreshed), and a URL at the current price |
| Orders.CreateRearms | app/api/orders/route.ts:84-108 | any other existing purchase keeps its id, user, template, currency, transaction id and creation time, and gets the fresh memo, status pending and the current price; the response carries the fresh memo even if the write fails |
| Orders.CreateInserts | app/api/orders/route.ts:111-142 | with no purchase for the pair, exactly one row (pending, "USD", current price, fresh memo, no transaction id) is added and returned; a failed insert gives 500 and no write |
| Orders.CreateLookupFailureDuplicates | app/api/orders/route.ts:50-57 | when the purchase lookup fails and the insert works, a new row for the pair is added beside the existing one, which stays as it was (a completed one included) |
| Orders.CreateWithDuplicatePair | app/api/orders/route.ts:50-63 | once two rows share the (user, template) pair, creation never answers 409, and a working insert adds one more row |
| Orders.CreateNeverTouchesCompleted | app/api/orders/route.ts:57-121 | on a table that keeps rows under their own ids, order creation never changes or removes a completed row |
| Orders.CreateKeepsKeys | app/api/orders/route.ts:87-121 | order creation keeps every row under its own id |
| Orders.CreateKeepsMemosDistinct | app/api/orders/route.ts:84-121 | if memos are distinct and the fresh memo is new, memos stay distinct after any creation call |
| PurchaseStore.Store.CreateOrder | app/api/orders/route.ts:6-149 | the handler's early returns and its one update or insert give exactly the table and response of `Orders.Create`; keeps the store invariant and memo distinctness, and leaves completed rows alone |
| OrdersVerify.Verify | app/api/orders/verify/route.ts:5-134 | no row is added or removed; rows change only in payment_status and transaction_id; an error response writes nothing; only a gateway SUCCESS or FAILED payment writes at all |
| OrdersVerify.TemplateName | app/api/orders/verify/route.ts:41 | the joined template's name is reported exactly when it is present and non-empty (an empty name becomes null) |
| OrdersVerify.VerifyGuards | app/api/orders/verify/route.ts:7-21 | a missing memo gives 400 even without a session; then no session gives 401; neither writes |
| OrdersVerify.VerifyScopedToCaller | app/api/orders/verify/route.ts:29-38 | when no row with the memo belongs to the caller, even if another user's row has it, the answer is 404 with no write |
| OrdersVerify.VerifyLookupFailureIsNotFound | app/api/orders/verify/route.ts:29-38 | a failed lookup answers 404 with no write, even when the caller's row exists |
| OrdersVerify.VerifyCompletedShortCircuit | app/api/orders/verify/route.ts:43-48 | a completed row is reported completed with no write, whatever the gateway result |
| OrdersVerify.VerifyNeverTouchesCompleted | app/api/orders/verify/route.ts:43-122 | for every input on a table that keeps rows under their own ids, no completed row is changed and no row is added or removed |
| OrdersVerify.VerifyDegradesToStored | app/api/orders/verify/route.ts:51-83 | a missing token, a response that is not ok, or an empty payments list reports the stored status with the table unchanged |
| OrdersVerify.VerifySuccess | app/api/orders/verify/route.ts:87-106 | SUCCESS sets only the matched row to completed with transaction_id = near_trx or null, and answers completed; if the update fails, the answer is the old stored status and nothing changes |
| OrdersVerify.VerifyFailed | app/api/orders/verify/route.ts:109-122 | FAILED answers failed whether or not the update succeeds; only the matched row can change, to failed with near_trx or null |
| OrdersVerify.VerifyOtherStatus | app/api/orders/verify/route.ts:124-127 | any other gateway status reports the stored status and writes nothing |
| OrdersVerify.VerifyFailedThenSuccess | app/api/orders/verify/route.ts:43-94 | a failed row moves to completed on a later SUCCESS, since failed is not short-circuited |
| OrdersVerify.VerifyKeepsMemos | app/api/orders/verify/route.ts:88-116 | verification keeps every row under its own id and never changes a memo |
| PurchaseStore.Store.VerifyOrder | app/api/orders/verify/route.ts:5-134 | the handler's early returns and its conditional update give exactly the table and response of `OrdersVerify.Verify`; no completed row changes |
| HotpayWebhook.Webhook | app/api/hotpay/webhook/route.ts:4-45 | no row is added or removed; only the row whose id is order_id can change, and only in payment_status and transaction_id; a rejected payload writes nothing |
| HotpayWebhook.MapStatus | app/api/hotpay/webhook/route.ts:26-27 | the result is completed exactly when the status is "completed" or "success" (case-sensitive), and failed otherwise |
| HotpayWebhook.UpperCaseSuccessIsFailed | app/api/hotpay/webhook/route.ts:26-27 | "SUCCESS" maps to failed |
| HotpayWebhook.WebhookRejectsMissingFields | app/api/hotpay/webhook/route.ts:10-17 | a falsy order_id or status gives 400 and the table is unchanged |
| HotpayWebhook.WebhookFrame | app/api/hotpay/webhook/route.ts:30-38 | only the row whose id is order_id changes, and only its payment_status and transaction_id (falsy becomes null); an unknown id changes nothing; the answer is success either way |
| HotpayWebhook.WebhookOverwritesCompleted | app/api/hotpay/webhook/route.ts:30-36 | with no terminal guard, any other status token overwrites a completed row to failed |
| HotpayWebhook.WebhookIdempotent | app/api/hotpay/webhook/route.ts:30-36 | applying the same payload twice gives the same table and response as applying it once, when the first write succeeded or neither did |
| HotpayWebhook.WebhookKeepsMemos | app/api/hotpay/webhook/route.ts:30-36 | the webhook keeps every row under its own id and never changes a memo |
| PurchaseStore.Store.ReceiveWebhook | app/api/hotpay/webhook/route.ts:4-45 | validation and the update by id give exactly the table and response of `HotpayWebhook.Webhook` |
| PaymentStatusPage.StateOf | app/payment/status/page.tsx:41-43 | stored completed shows completed, stored failed shows failed, every other string shows polling |
| PaymentStatusPage.CheckStatus | app/payment/status/page.tsx:22-44 | null exactly when memo or user is missing; not_found exactly when the read fails or the (memo, user) lookup does not find one row; otherwise the state of a row with that memo owned by the user |
| PaymentStatusPage.Poll | app/payment/status/page.tsx:46-77 | with no memo or user nothing is checked and the page shows polling; otherwise the loop ends with the state and check count of the polling rule, and it writes nothing |
| PaymentStatusPage.PollStopsAtFirstSettled | app/payment/status/page.tsx:56-59 | polling stops at the first result that is neither null nor polling, if it arrives before cancellation, and shows it |
| PaymentStatusPage.PollKeepsPolling | app/payment/status/page.tsx:56-62 | null and polling results only reschedule, so without a settling result before cancellation the page still shows polling |
| PaymentStatusPage.PollIgnoresAfterCancel | app/payment/status/page.tsx:49-76 | results that arrive after cancellation are ignored; the shown state depends only on the earlier results |
| PaymentStatusPage.FirstMissIsFinal | app/payment/status/page.tsx:25-59 | when the first check's read fails or finds no row for (memo, user), the polling run shows not_found after exactly one check, with no retry |
| Strings.Split | components/navbar.tsx:22 | `split` gives at least one piece, no piece holds the separator, and joining the pieces gives back the string |
| Strings.Upper | components/navbar.tsx:25 | upper-casing keeps the length and leaves no lower-case ASCII letter: each becomes the same letter in upper case, and every other character is kept |
| Strings.UpperIdempotent | components/navbar.tsx:25 | upper-casing an upper-cased string changes nothing |
| Strings.AmountTextRoundTrip | app/api/orders/route.ts:164 | the rendered amount reads back (sign, whole units, one or two fraction digits) as the amount in cents |
| Strings.AmountTextInjective | app/api/orders/route.ts:164 | different amounts give different amount texts |
| Navbar.Heads | components/navbar.tsx:23-24 | at most one character per piece, exactly one when no piece is empty, and each the first character of some piece |
| Navbar.HeadsAreWordStarts | components/navbar.tsx:22-24 | the first characters of the space-separated pieces are exactly the characters that begin a word; empty pieces add nothing |
| Navbar.Initials | components/navbar.tsx:21-26 | the result has 1 or 2 characters; it is the upper-cased first two word starts of the full name when there are any, else the upper-cased first character of a non-empty email, else "U" |
| Navbar.SpacesContributeNothing | components/navbar.tsx:21-26 | leading, trailing and doubled spaces in the full name do not change the initials |
| StorePage.Dedup | app/store/page.tsx:13-15 | the Set spread has no duplicates, the same elements as its input, and first-occurrence order |
| StorePage.Categories | app/store/page.tsx:13-15 | no duplicates; every template's category is listed; every entry is some template's category; entries in first-occurrence order; null templates give an empty list |
| UrlQuery.Serialize | app/api/orders/route.ts:162-170 | when the encoding never emits `&`, a non-empty parameter list gives a non-empty query whose `&`-separated pieces are exactly the encoded `name=value` pairs, in order |
| UrlQuery.ParseSerialize | app/api/orders/route.ts:162-170 | parsing the serialized query gives back the pairs, for any encoding that never emits `&` or `=` and that the decoder inverts |

## Left out

- Supabase clients, service-role keys and the auth session are replaced by the table value and an `Option<UserId>`.
- The HotPay fetch in `app/api/orders/verify/route.ts:59-66` and `request.json()` are left out; the model takes a `GatewayResult` and a parsed `Payload` or `templateId` instead.
- The `catch` branches that answer 500 are not modelled. In the source they catch a body that is not JSON (`request.json()` at `app/api/orders/route.ts:18` and `app/api/hotpay/webhook/route.ts:6`), a rejected `fetch` of the HotPay API (`app/api/orders/verify/route.ts:59-66`) and a response body that is not JSON (`app/api/orders/verify/route.ts:75`). So an unreachable gateway gives 500 in the source, and `GatewayResult` has no case for it.
- JSON values that are not strings, such as a numeric `order_id`, are out of scope; truthiness is modelled for strings only.
- `crypto.randomUUID` is the `freshMemo` parameter. The database's id and `purchased_at` defaults are the `newId` and `now` parameters.
- Percent-encoding by `URLSearchParams` (application/x-www-form-urlencoded, WHATWG URL Standard section 5.2) is left out. The encoder and decoder are parameters. `UrlQuery.Parse` handles only the query shapes `Serialize` produces: it neither skips empty segments nor decodes `+`.
- Amounts are integer cents and floating point is not modelled. `Strings.AmountText` renders the form `Number.prototype.toString` gives a price with at most two decimals and below 1e21, where JavaScript switches to exponent notation; other prices are out of scope.
- `toUpperCase` is modelled on ASCII letters only. A Unicode case mapping that lengthens a string (`"ß"` to `"SS"`) is not modelled, so in the model `Navbar.Initials` has at most 2 characters for every input. Characters are Unicode scalar values, not UTF-16 code units.
- Timers are replaced: the 3-second `setTimeout`, the 5-minute cap and the effect cleanup become a finite sequence of table snapshots plus the index `cancelAt`. The `checks` count assumes a check that runs after cancellation is awaited and then ignored.
- The status page's `setTemplateName` side effect and all rendering are left out.
- A re-run of the status page's effect when `memo`, `user` or `checkStatus` change (`app/payment/status/page.tsx:77`) is not modelled. Each run is a separate `PaymentStatusPage.Poll`, and a later run can replace a `not_found` with a settling result.
- Concurrency between the webhook and verify is out of scope; each handler is one atomic step.
- Pure rendering files are not modelled: `app/page.tsx`, `app/layout.tsx`, `app/dashboard/page.tsx`, `app/purchases/page.tsx` and the components other than the navbar's initials.
- The dashboard and purchases listing queries, and the dashboard's floating-point totals and date formatting, are not modelled.
