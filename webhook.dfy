/** The HotPay webhook (`POST /api/hotpay/webhook`): an update of the row whose
    id is `order_id`, with no guard on the row's current status. */
module HotpayWebhook {
  import opened Types
  import opened PurchaseTable

  /** The fields of the already-parsed JSON body that the handler reads. */
  datatype Payload = Payload(orderId: Option<string>, status: Option<string>, transactionId: Option<string>)

  datatype WebhookResponse =
    | Accepted                        // {success: true}
    | WebhookError(status: int, error: string)

  /** The webhook's own vocabulary: exactly "completed" and "success"
      (case-sensitive) mean completed; everything else means failed. */
  function MapStatus(status: string): (r: string)
    ensures r == StatusCompleted <==> (status == "completed" || status == "success")
    ensures r == StatusFailed <==> !(status == "completed" || status == "success")
  {
    if status == "completed" || status == "success" then StatusCompleted else StatusFailed
  }

  /** No row is added or removed; only the row whose id is order_id can
      change, and only in its status and transaction id; a rejected payload
      writes nothing. */
  function Webhook(rows: Rows, payload: Payload, writeOk: bool): (s: Step<WebhookResponse>)
    ensures s.rows.Keys == rows.Keys
    ensures forall k :: k in rows && payload.orderId != Some(k) ==> s.rows[k] == rows[k]
    ensures forall k :: k in rows ==>
      s.rows[k] == rows[k].(paymentStatus := s.rows[k].paymentStatus, transactionId := s.rows[k].transactionId)
    ensures s.response.WebhookError? ==> s.rows == rows
  {
    if !Truthy(payload.orderId) || !Truthy(payload.status) then
      Step(rows, WebhookError(400, "Missing required fields"))
    else
      var status := MapStatus(payload.status.value);
      var rows' := if writeOk then SetStatus(rows, payload.orderId.value, status, OrNull(payload.transactionId)) else rows;
      Step(rows', Accepted)
  }

  // ---------------------------------------------------------------------------
  // Properties of Webhook

  /** "SUCCESS", the token the verify route treats as success, means failed here. */
  lemma UpperCaseSuccessIsFailed()
    ensures MapStatus("SUCCESS") == StatusFailed
  {
  }

  /** A falsy order_id or status is rejected and nothing is written. */
  lemma WebhookRejectsMissingFields(rows: Rows, payload: Payload, writeOk: bool)
    requires !Truthy(payload.orderId) || !Truthy(payload.status)
    ensures Webhook(rows, payload, writeOk) == Step(rows, WebhookError(400, "Missing required fields"))
  {
  }

  /** Only the row whose id is order_id changes, and only its payment_status
      and transaction_id (a falsy transaction_id is stored as null). The
      response is success whether or not such a row exists. */
  lemma WebhookFrame(rows: Rows, payload: Payload, writeOk: bool)
    requires Truthy(payload.orderId) && Truthy(payload.status)
    ensures var s := Webhook(rows, payload, writeOk);
      var id := payload.orderId.value;
      && s.response == Accepted
      && s.rows.Keys == rows.Keys
      && (forall k :: k in rows && k != id ==> s.rows[k] == rows[k])
      && (writeOk && id in rows ==>
            s.rows[id] == rows[id].(paymentStatus := MapStatus(payload.status.value),
                                    transactionId := OrNull(payload.transactionId)))
      && (!writeOk || id !in rows ==> s.rows == rows)
  {
  }

  /** There is no terminal guard: a completed row is overwritten to failed by
      any other status token, "SUCCESS" included. */
  lemma WebhookOverwritesCompleted(rows: Rows, id: Id, status: string, txn: Option<string>)
    requires id != "" && id in rows && rows[id].paymentStatus == StatusCompleted
    requires status != "" && status != "completed" && status != "success"
    ensures Webhook(rows, Payload(Some(id), Some(status), txn), true).rows[id].paymentStatus == StatusFailed
  {
  }

  /** Applying the same payload twice gives the same table as applying it once. */
  lemma WebhookIdempotent(rows: Rows, payload: Payload, firstOk: bool, secondOk: bool)
    requires firstOk || !secondOk
    ensures var once := Webhook(rows, payload, firstOk);
      Webhook(once.rows, payload, secondOk) == once
  {
  }

  /** The webhook keeps every row under its own id and never changes a memo. */
  lemma WebhookKeepsMemos(rows: Rows, payload: Payload, writeOk: bool)
    requires KeysMatchIds(rows)
    ensures var r := Webhook(rows, payload, writeOk).rows;
      KeysMatchIds(r) && r.Keys == rows.Keys && forall k :: k in r ==> r[k].memo == rows[k].memo
  {
  }
}
