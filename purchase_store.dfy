/** The purchases table as one mutable object, and the three server handlers
    as methods that read it and then write it at most once. */
module PurchaseStore {
  import opened Types
  import opened PurchaseTable
  import Orders
  import OrdersVerify
  import HotpayWebhook

  class Store {
    var rows: Rows

    ghost predicate Valid()
      reads this
    {
      KeysMatchIds(rows)
    }

    constructor ()
      ensures Valid() && rows == map[]
    {
      rows := map[];
    }

    /** `POST /api/orders`. */
    method CreateOrder(user: Option<UserId>, templateId: Option<string>,
                       catalog: map<TemplateId, Template>, env: Orders.Env,
                       freshMemo: string, newId: Id, now: string, db: Orders.Db)
      returns (resp: Orders.CreateResponse)
      requires Valid()
      modifies this
      ensures Valid()
      ensures Step(rows, resp) == Orders.Create(old(rows), user, templateId, catalog, env, freshMemo, newId, now, db)
      ensures MemosDistinct(old(rows)) && MemoFresh(old(rows), freshMemo) ==> MemosDistinct(rows)
      ensures forall k :: k in old(rows) && old(rows)[k].paymentStatus == StatusCompleted ==> k in rows && rows[k] == old(rows)[k]
    {
      Orders.CreateKeepsKeys(rows, user, templateId, catalog, env, freshMemo, newId, now, db);
      Orders.CreateNeverTouchesCompleted(rows, user, templateId, catalog, env, freshMemo, newId, now, db);
      if MemosDistinct(rows) && MemoFresh(rows, freshMemo) {
        Orders.CreateKeepsMemosDistinct(rows, user, templateId, catalog, env, freshMemo, newId, now, db);
      }
      if user.None? {
        return Orders.CreateError(401, "unauthorized");
      }
      if !Truthy(templateId) {
        return Orders.CreateError(400, "template_id is required");
      }
      var template := Orders.ActiveTemplate(catalog, templateId.value, db.templateReadOk);
      if template.None? {
        return Orders.CreateError(404, "template_not_found");
      }
      var t := template.value;
      var existing := Single(rows, ByUserTemplate(user.value, templateId.value), db.purchaseReadOk);
      if existing.Some? {
        if existing.value.paymentStatus == StatusCompleted {
          return Orders.CreateError(409, "already_purchased");
        }
        if existing.value.paymentStatus == StatusPending && Truthy(existing.value.memo) {
          var memo := existing.value.memo.value;
          return Orders.Created(existing.value.id, memo, Orders.BuildPaymentUrl(env, t.hotpayItemId, t.price, memo));
        }
      }
      var memo := freshMemo;
      if existing.Some? {
        if db.writeOk {
          rows := Rearm(rows, existing.value.id, memo, t.price);
        }
        return Orders.Created(existing.value.id, memo, Orders.BuildPaymentUrl(env, t.hotpayItemId, t.price, memo));
      }
      if !db.writeOk || newId in rows {
        return Orders.CreateError(500, "failed_to_create_order");
      }
      rows := rows[newId := Orders.NewPurchase(newId, user.value, t, memo, now)];
      resp := Orders.Created(newId, memo, Orders.BuildPaymentUrl(env, t.hotpayItemId, t.price, memo));
    }

    /** `GET /api/orders/verify`. */
    method VerifyOrder(memo: Option<string>, user: Option<UserId>,
                       catalog: map<TemplateId, Template>, gateway: OrdersVerify.GatewayResult, readOk: bool, writeOk: bool)
      returns (resp: OrdersVerify.VerifyResponse)
      requires Valid()
      modifies this
      ensures Valid()
      ensures Step(rows, resp) == OrdersVerify.Verify(old(rows), memo, user, catalog, gateway, readOk, writeOk)
      ensures forall k :: k in old(rows) && old(rows)[k].paymentStatus == StatusCompleted ==> k in rows && rows[k] == old(rows)[k]
    {
      OrdersVerify.VerifyKeepsMemos(rows, memo, user, catalog, gateway, readOk, writeOk);
      OrdersVerify.VerifyNeverTouchesCompleted(rows, memo, user, catalog, gateway, readOk, writeOk);
      if !Truthy(memo) {
        return OrdersVerify.VerifyError(400, "memo is required");
      }
      if user.None? {
        return OrdersVerify.VerifyError(401, "unauthorized");
      }
      var purchase := Single(rows, ByMemoUser(memo.value, user.value), readOk);
      if purchase.None? {
        return OrdersVerify.VerifyError(404, "order_not_found");
      }
      var p := purchase.value;
      var name := OrdersVerify.TemplateName(catalog, p.templateId);
      if p.paymentStatus == StatusCompleted {
        return OrdersVerify.Report(StatusCompleted, name);
      }
      if !gateway.Payment? {
        return OrdersVerify.Report(p.paymentStatus, name);
      }
      if gateway.status == "SUCCESS" {
        if !writeOk {
          return OrdersVerify.Report(p.paymentStatus, name);
        }
        rows := SetStatus(rows, p.id, StatusCompleted, OrNull(gateway.nearTrx));
        return OrdersVerify.Report(StatusCompleted, name);
      }
      if gateway.status == "FAILED" {
        if writeOk {
          rows := SetStatus(rows, p.id, StatusFailed, OrNull(gateway.nearTrx));
        }
        return OrdersVerify.Report(StatusFailed, name);
      }
      resp := OrdersVerify.Report(p.paymentStatus, name);
    }

    /** `POST /api/hotpay/webhook`. */
    method ReceiveWebhook(payload: HotpayWebhook.Payload, writeOk: bool)
      returns (resp: HotpayWebhook.WebhookResponse)
      requires Valid()
      modifies this
      ensures Valid()
      ensures Step(rows, resp) == HotpayWebhook.Webhook(old(rows), payload, writeOk)
    {
      HotpayWebhook.WebhookKeepsMemos(rows, payload, writeOk);
      if !Truthy(payload.orderId) || !Truthy(payload.status) {
        return HotpayWebhook.WebhookError(400, "Missing required fields");
      }
      var status := HotpayWebhook.MapStatus(payload.status.value);
      if writeOk {
        rows := SetStatus(rows, payload.orderId.value, status, OrNull(payload.transactionId));
      }
      resp := HotpayWebhook.Accepted;
    }
  }
}
