/** Order creation (`POST /api/orders`) and the payment URL it hands out. */
module Orders {
  import opened Types
  import opened Strings
  import opened PurchaseTable
  import opened UrlQuery

  const DefaultHotpayBaseUrl := "https://pay.hot-labs.org"
  const Currency := "USD"

  /** Environment settings; an unset variable is the empty string, since the
      source falls back with `||`. */
  datatype Env = Env(hotpayBaseUrl: string, hotpayItemId: string, appUrl: string)

  /** `${baseUrl}/payment?${params}` before the parameters are encoded. */
  datatype PaymentUrl = PaymentUrl(base: string, params: seq<Param>)

  function BaseUrl(env: Env): string {
    if env.hotpayBaseUrl != "" then env.hotpayBaseUrl else DefaultHotpayBaseUrl
  }

  /** `hotpayItemId || NEXT_PUBLIC_HOTPAY_ITEM_ID || ""`. */
  function ItemId(env: Env, hotpayItemId: Option<string>): string {
    if Truthy(hotpayItemId) then hotpayItemId.value else env.hotpayItemId
  }

  function BuildPaymentUrl(env: Env, hotpayItemId: Option<string>, amount: int, memo: string): (u: PaymentUrl)
    ensures u.base == BaseUrl(env)
    ensures |u.params| == 5
    ensures u.params[0].0 == "item_id" && u.params[1].0 == "amount" && u.params[2].0 == "memo"
    ensures u.params[3].0 == "webhook_url" && u.params[4].0 == "redirect_url"
    ensures Get(u.params, "item_id") == Some(ItemId(env, hotpayItemId))
    ensures Get(u.params, "amount") == Some(AmountText(amount))
    ensures Get(u.params, "memo") == Some(memo)
    ensures Get(u.params, "webhook_url") == Some(env.appUrl + "/api/hotpay/webhook")
    ensures Get(u.params, "redirect_url") == Some(env.appUrl + "/payment/status?memo=" + memo)
  {
    var webhookUrl := env.appUrl + "/api/hotpay/webhook";
    var redirectUrl := env.appUrl + "/payment/status?memo=" + memo;
    var params := [
      ("item_id", ItemId(env, hotpayItemId)),
      ("amount", AmountText(amount)),
      ("memo", memo),
      ("webhook_url", webhookUrl),
      ("redirect_url", redirectUrl)];
    PaymentParamsGet(params);
    PaymentUrl(BaseUrl(env), params)
  }

  /** In a list with the payment URL's five names in order, each name's
      value is the one beside it. */
  lemma PaymentParamsGet(params: seq<Param>)
    requires |params| == 5
    requires params[0].0 == "item_id" && params[1].0 == "amount" && params[2].0 == "memo"
    requires params[3].0 == "webhook_url" && params[4].0 == "redirect_url"
    ensures Get(params, "item_id") == Some(params[0].1)
    ensures Get(params, "amount") == Some(params[1].1)
    ensures Get(params, "memo") == Some(params[2].1)
    ensures Get(params, "webhook_url") == Some(params[3].1)
    ensures Get(params, "redirect_url") == Some(params[4].1)
  {
    GetFirst(params, 0, "item_id");
    GetFirst(params, 1, "amount");
    GetFirst(params, 2, "memo");
    GetFirst(params, 3, "webhook_url");
    GetFirst(params, 4, "redirect_url");
  }

  /** The URL as a string, with `enc` standing for form-urlencoding. */
  function Render(u: PaymentUrl, enc: string -> string): string {
    u.base + "/payment?" + Serialize(u.params, enc)
  }

  /** A reader of the rendered URL finds the base, then recovers every
      parameter, in particular the memo the order was given. */
  lemma PaymentUrlMemoRoundTrip(env: Env, hotpayItemId: Option<string>, amount: int, memo: string,
                                enc: string -> string, dec: string -> string)
    requires forall s :: '&' !in enc(s) && '=' !in enc(s)
    requires forall s :: dec(enc(s)) == s
    ensures var url := Render(BuildPaymentUrl(env, hotpayItemId, amount, memo), enc);
            var prefix := BaseUrl(env) + "/payment?";
            |prefix| <= |url| && url[..|prefix|] == prefix &&
            Get(Parse(url[|prefix|..], dec), "memo") == Some(memo)
  {
    var u := BuildPaymentUrl(env, hotpayItemId, amount, memo);
    var prefix := BaseUrl(env) + "/payment?";
    var url := Render(u, enc);
    assert url == prefix + Serialize(u.params, enc);
    assert url[|prefix|..] == Serialize(u.params, enc);
    ParseSerialize(u.params, enc, dec);
  }

  /** `.from("templates").eq("id", id).eq("is_active", true).single()`: a
      read that succeeds finds the catalog's template with that id exactly
      when it is active; a failed read (`readOk` false) gives no template,
      like a missing one. */
  function ActiveTemplate(catalog: map<TemplateId, Template>, id: TemplateId, readOk: bool): (r: Option<Template>)
    ensures r.Some? ==> readOk && id in catalog && r.value == catalog[id] && r.value.id == id && r.value.isActive
    ensures readOk && id in catalog && catalog[id].id == id && catalog[id].isActive ==> r == Some(catalog[id])
  {
    if readOk && id in catalog && catalog[id].id == id && catalog[id].isActive then Some(catalog[id]) else None
  }

  datatype CreateResponse =
    | Created(orderId: Id, memo: string, paymentUrl: PaymentUrl)
    | CreateError(status: int, error: string)

  /** Whether each database call of the handler succeeds: the template read,
      the purchase lookup, and the one update or insert. */
  datatype Db = Db(templateReadOk: bool, purchaseReadOk: bool, writeOk: bool)

  /** The reuse / re-arm / insert decision for the pair (user, template).
      `freshMemo` stands for `crypto.randomUUID()`, `newId` for the id the
      database assigns and `now` for the default `purchased_at`. An error
      response leaves the table alone; no row disappears; only the row of the
      order handed out can be new or changed, and a written row is pending
      with the memo handed out, which the URL carries. */
  function Create(rows: Rows, user: Option<UserId>, templateId: Option<string>,
                  catalog: map<TemplateId, Template>, env: Env,
                  freshMemo: string, newId: Id, now: string, db: Db): (s: Step<CreateResponse>)
    ensures s.response.CreateError? ==> s.rows == rows
    ensures rows.Keys <= s.rows.Keys
    ensures forall k :: k in s.rows && !(s.response.Created? && k == s.response.orderId) ==>
      k in rows && s.rows[k] == rows[k]
    ensures s.response.Created? && s.rows != rows ==>
      s.response.orderId in s.rows && s.rows[s.response.orderId].memo == Some(s.response.memo)
      && s.rows[s.response.orderId].paymentStatus == StatusPending
    ensures s.response.Created? ==>
      Get(s.response.paymentUrl.params, "memo") == Some(s.response.memo)
      && Get(s.response.paymentUrl.params, "redirect_url") == Some(env.appUrl + "/payment/status?memo=" + s.response.memo)
  {
    if user.None? then Step(rows, CreateError(401, "unauthorized"))
    else if !Truthy(templateId) then Step(rows, CreateError(400, "template_id is required"))
    else match ActiveTemplate(catalog, templateId.value, db.templateReadOk)
      case None => Step(rows, CreateError(404, "template_not_found"))
      case Some(t) => ForTemplate(rows, user.value, templateId.value, t, env, freshMemo, newId, now, db)
  }

  /** The guarantees `Create` gives, as one predicate for the steps it is
      built from. */
  ghost predicate CreateStepOk(rows: Rows, env: Env, s: Step<CreateResponse>) {
    && (s.response.CreateError? ==> s.rows == rows)
    && rows.Keys <= s.rows.Keys
    && (forall k :: k in s.rows && !(s.response.Created? && k == s.response.orderId) ==>
          k in rows && s.rows[k] == rows[k])
    && (s.response.Created? && s.rows != rows ==>
          s.response.orderId in s.rows && s.rows[s.response.orderId].memo == Some(s.response.memo)
          && s.rows[s.response.orderId].paymentStatus == StatusPending)
    && (s.response.Created? ==>
          Get(s.response.paymentUrl.params, "memo") == Some(s.response.memo)
          && Get(s.response.paymentUrl.params, "redirect_url") == Some(env.appUrl + "/payment/status?memo=" + s.response.memo))
  }

  /** The part of `Create` after the template is found: the purchase lookup,
      then the existing row's branch or the insert. */
  function ForTemplate(rows: Rows, user: UserId, templateId: TemplateId, t: Template, env: Env,
                       freshMemo: string, newId: Id, now: string, db: Db): (s: Step<CreateResponse>)
    ensures CreateStepOk(rows, env, s)
  {
    match Single(rows, ByUserTemplate(user, templateId), db.purchaseReadOk)
    case Some(e) => ForExisting(rows, e, t, env, freshMemo, db.writeOk)
    case None => InsertNew(rows, user, t, env, freshMemo, newId, now, db.writeOk)
  }

  /** The pair already has the row `e`: 409, reuse, or re-arm. */
  function ForExisting(rows: Rows, e: Purchase, t: Template, env: Env,
                       freshMemo: string, writeOk: bool): (s: Step<CreateResponse>)
    ensures CreateStepOk(rows, env, s)
  {
    if e.paymentStatus == StatusCompleted then
      Step(rows, CreateError(409, "already_purchased"))
    else if e.paymentStatus == StatusPending && Truthy(e.memo) then
      Step(rows, Created(e.id, e.memo.value, BuildPaymentUrl(env, t.hotpayItemId, t.price, e.memo.value)))
    else
      var rows' := if writeOk then Rearm(rows, e.id, freshMemo, t.price) else rows;
      Step(rows', Created(e.id, freshMemo, BuildPaymentUrl(env, t.hotpayItemId, t.price, freshMemo)))
  }

  /** No row found for the pair: insert one, or 500 when the insert fails. */
  function InsertNew(rows: Rows, user: UserId, t: Template, env: Env,
                     freshMemo: string, newId: Id, now: string, writeOk: bool): (s: Step<CreateResponse>)
    ensures CreateStepOk(rows, env, s)
  {
    if !writeOk || newId in rows then
      Step(rows, CreateError(500, "failed_to_create_order"))
    else
      Step(rows[newId := NewPurchase(newId, user, t, freshMemo, now)],
           Created(newId, freshMemo, BuildPaymentUrl(env, t.hotpayItemId, t.price, freshMemo)))
  }

  /** The row the insert writes. */
  function NewPurchase(id: Id, user: UserId, t: Template, memo: string, now: string): Purchase {
    Purchase(id, user, t.id, None, Some(memo), StatusPending, t.price, Currency, now)
  }

  // ---------------------------------------------------------------------------
  // Properties of Create

  /** No session, a falsy template_id and an unknown, inactive or unreadable
      template are rejected in that order, before the purchases table is read
      or written. */
  lemma CreateGuards(rows: Rows, user: Option<UserId>, templateId: Option<string>,
                     catalog: map<TemplateId, Template>, env: Env,
                     freshMemo: string, newId: Id, now: string, db: Db)
    ensures var s := Create(rows, user, templateId, catalog, env, freshMemo, newId, now, db);
      && (user.None? ==> s == Step(rows, CreateError(401, "unauthorized")))
      && (user.Some? && !Truthy(templateId) ==> s == Step(rows, CreateError(400, "template_id is required")))
      && (user.Some? && Truthy(templateId) &&
          (!db.templateReadOk || templateId.value !in catalog || !catalog[templateId.value].isActive) ==>
            s == Step(rows, CreateError(404, "template_not_found")))
  {
  }

  /** An existing completed purchase of the pair gives 409 and no write. */
  lemma CreateAlreadyPurchased(rows: Rows, user: UserId, templateId: string,
                               catalog: map<TemplateId, Template>, env: Env,
                               freshMemo: string, newId: Id, now: string, db: Db)
    requires templateId != "" && ActiveTemplate(catalog, templateId, db.templateReadOk).Some?
    requires var e := Single(rows, ByUserTemplate(user, templateId), db.purchaseReadOk);
      e.Some? && e.value.paymentStatus == StatusCompleted
    ensures Create(rows, Some(user), Some(templateId), catalog, env, freshMemo, newId, now, db)
         == Step(rows, CreateError(409, "already_purchased"))
  {
  }

  /** A pending purchase with a memo is handed out again: same order id, same
      memo, no write (so the stored amount is not refreshed), and a URL built
      from the current price. */
  lemma CreateReusesPending(rows: Rows, user: UserId, templateId: string,
                            catalog: map<TemplateId, Template>, env: Env,
                            freshMemo: string, newId: Id, now: string, db: Db)
    requires templateId != "" && ActiveTemplate(catalog, templateId, db.templateReadOk).Some?
    requires var e := Single(rows, ByUserTemplate(user, templateId), db.purchaseReadOk);
      e.Some? && e.value.paymentStatus == StatusPending && Truthy(e.value.memo)
    ensures var e := Single(rows, ByUserTemplate(user, templateId), db.purchaseReadOk).value;
      var t := catalog[templateId];
      Create(rows, Some(user), Some(templateId), catalog, env, freshMemo, newId, now, db)
        == Step(rows, Created(e.id, e.memo.value, BuildPaymentUrl(env, t.hotpayItemId, t.price, e.memo.value)))
  {
  }

  /** Any other existing purchase (failed, another status, or pending without
      a memo) is re-armed in place: it keeps its id, user, template, currency
      and transaction id, and gets the fresh memo, status pending and the
      current price. The response carries the fresh memo even if the write fails. */
  lemma CreateRearms(rows: Rows, user: UserId, templateId: string,
                     catalog: map<TemplateId, Template>, env: Env,
                     freshMemo: string, newId: Id, now: string, db: Db)
    requires KeysMatchIds(rows)
    requires templateId != "" && ActiveTemplate(catalog, templateId, db.templateReadOk).Some?
    requires var e := Single(rows, ByUserTemplate(user, templateId), db.purchaseReadOk);
      e.Some? && e.value.paymentStatus != StatusCompleted && !(e.value.paymentStatus == StatusPending && Truthy(e.value.memo))
    ensures var e := Single(rows, ByUserTemplate(user, templateId), db.purchaseReadOk).value;
      var t := catalog[templateId];
      var s := Create(rows, Some(user), Some(templateId), catalog, env, freshMemo, newId, now, db);
      && s.response == Created(e.id, freshMemo, BuildPaymentUrl(env, t.hotpayItemId, t.price, freshMemo))
      && s.rows.Keys == rows.Keys
      && (forall k :: k in rows && k != e.id ==> s.rows[k] == rows[k])
      && (db.writeOk ==> s.rows[e.id] == Purchase(e.id, e.userId, e.templateId, e.transactionId,
                                                 Some(freshMemo), StatusPending, t.price, e.currency, e.purchasedAt))
      && (!db.writeOk ==> s.rows == rows)
  {
    SingleIsStored(rows, ByUserTemplate(user, templateId), db.purchaseReadOk);
  }

  /** With no purchase found for the pair, one pending USD row with the
      current price and the fresh memo is inserted; a failed insert gives 500
      and no write. */
  lemma CreateInserts(rows: Rows, user: UserId, templateId: string,
                      catalog: map<TemplateId, Template>, env: Env,
                      freshMemo: string, newId: Id, now: string, db: Db)
    requires templateId != "" && ActiveTemplate(catalog, templateId, db.templateReadOk).Some?
    requires Single(rows, ByUserTemplate(user, templateId), db.purchaseReadOk).None?
    ensures var t := catalog[templateId];
      var s := Create(rows, Some(user), Some(templateId), catalog, env, freshMemo, newId, now, db);
      if db.writeOk && newId !in rows then
        && s.rows.Keys == rows.Keys + {newId}
        && (forall k :: k in rows ==> s.rows[k] == rows[k])
        && s.rows[newId] == Purchase(newId, user, templateId, None, Some(freshMemo), StatusPending, t.price, "USD", now)
        && s.response == Created(newId, freshMemo, BuildPaymentUrl(env, t.hotpayItemId, t.price, freshMemo))
      else
        s == Step(rows, CreateError(500, "failed_to_create_order"))
  {
  }

  /** The lookup's error is ignored: when it fails, the handler goes on as if
      the pair had no purchase, and a working insert adds a second row for a
      pair that already has one (a completed one included). */
  lemma CreateLookupFailureDuplicates(rows: Rows, user: UserId, templateId: string,
                                      catalog: map<TemplateId, Template>, env: Env,
                                      freshMemo: string, newId: Id, now: string, db: Db, k: Id)
    requires templateId != "" && ActiveTemplate(catalog, templateId, db.templateReadOk).Some?
    requires !db.purchaseReadOk && db.writeOk && newId !in rows
    requires k in rows && Matches(rows[k], ByUserTemplate(user, templateId))
    ensures var s := Create(rows, Some(user), Some(templateId), catalog, env, freshMemo, newId, now, db);
      && s.response.Created? && s.response.orderId == newId
      && k in s.rows && newId in s.rows && k != newId && s.rows[k] == rows[k]
      && Matches(s.rows[newId], ByUserTemplate(user, templateId))
  {
  }

  /** Once two rows share the pair, the lookup never finds a row for it
      again: a completed purchase no longer gives 409, and every call with a
      working insert adds yet another row. */
  lemma CreateWithDuplicatePair(rows: Rows, user: UserId, templateId: string,
                                catalog: map<TemplateId, Template>, env: Env,
                                freshMemo: string, newId: Id, now: string, db: Db, i: Id, j: Id)
    requires templateId != "" && ActiveTemplate(catalog, templateId, db.templateReadOk).Some?
    requires i in rows && j in rows && i != j
    requires Matches(rows[i], ByUserTemplate(user, templateId)) && Matches(rows[j], ByUserTemplate(user, templateId))
    ensures var s := Create(rows, Some(user), Some(templateId), catalog, env, freshMemo, newId, now, db);
      && s.response != CreateError(409, "already_purchased")
      && (db.writeOk && newId !in rows ==> s.rows.Keys == rows.Keys + {newId})
  {
    var ids := MatchingIds(rows, ByUserTemplate(user, templateId));
    assert {i, j} <= ids;
    assert |{i, j}| == 2;
    assert |ids| >= 2 by {
      assert ids == {i, j} + (ids - {i, j});
    }
  }

  /** A completed purchase is never changed by order creation. */
  lemma CreateNeverTouchesCompleted(rows: Rows, user: Option<UserId>, templateId: Option<string>,
                                    catalog: map<TemplateId, Template>, env: Env,
                                    freshMemo: string, newId: Id, now: string, db: Db)
    requires KeysMatchIds(rows)
    ensures var s := Create(rows, user, templateId, catalog, env, freshMemo, newId, now, db);
      forall k :: k in rows && rows[k].paymentStatus == StatusCompleted ==> k in s.rows && s.rows[k] == rows[k]
  {
    if user.Some? && Truthy(templateId) && ActiveTemplate(catalog, templateId.value, db.templateReadOk).Some? {
      var e := Single(rows, ByUserTemplate(user.value, templateId.value), db.purchaseReadOk);
      if e.Some? {
        SingleIsStored(rows, ByUserTemplate(user.value, templateId.value), db.purchaseReadOk);
      }
    }
  }

  /** Every call keeps rows under their own ids. */
  lemma CreateKeepsKeys(rows: Rows, user: Option<UserId>, templateId: Option<string>,
                        catalog: map<TemplateId, Template>, env: Env,
                        freshMemo: string, newId: Id, now: string, db: Db)
    requires KeysMatchIds(rows)
    ensures KeysMatchIds(Create(rows, user, templateId, catalog, env, freshMemo, newId, now, db).rows)
  {
    if user.Some? && Truthy(templateId) && ActiveTemplate(catalog, templateId.value, db.templateReadOk).Some? {
      var e := Single(rows, ByUserTemplate(user.value, templateId.value), db.purchaseReadOk);
      if e.Some? {
        SingleIsStored(rows, ByUserTemplate(user.value, templateId.value), db.purchaseReadOk);
      }
    }
  }

  /** If memos are distinct and the fresh memo is new to the table, memos stay
      distinct after any call. */
  lemma CreateKeepsMemosDistinct(rows: Rows, user: Option<UserId>, templateId: Option<string>,
                                 catalog: map<TemplateId, Template>, env: Env,
                                 freshMemo: string, newId: Id, now: string, db: Db)
    requires MemosDistinct(rows) && MemoFresh(rows, freshMemo)
    ensures MemosDistinct(Create(rows, user, templateId, catalog, env, freshMemo, newId, now, db).rows)
  {
    if user.Some? && Truthy(templateId) && ActiveTemplate(catalog, templateId.value, db.templateReadOk).Some? {
      var t := ActiveTemplate(catalog, templateId.value, db.templateReadOk).value;
      var e := Single(rows, ByUserTemplate(user.value, templateId.value), db.purchaseReadOk);
      if e.Some? && db.writeOk {
        RearmKeepsMemosDistinct(rows, e.value.id, freshMemo, t.price);
      } else if e.None? && db.writeOk && newId !in rows {
        InsertKeepsMemosDistinct(rows, newId, NewPurchase(newId, user.value, t, freshMemo, now), freshMemo);
      }
    }
  }
}
