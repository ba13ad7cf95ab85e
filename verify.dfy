/** Polling verification (`GET /api/orders/verify?memo=...`). The HotPay API
    call is replaced by what it produced, a GatewayResult. */
module OrdersVerify {
  import opened Types
  import opened PurchaseTable

  /** What the handler learns from the gateway: no API token configured, a
      response that is not ok, an empty `payments` list, or the first payment. */
  datatype GatewayResult =
    | NoToken
    | NotOk
    | Empty
    | Payment(status: string, nearTrx: Option<string>)

  datatype VerifyResponse =
    | Report(paymentStatus: string, templateName: Option<string>)
    | VerifyError(status: int, error: string)

  /** `purchase.templates?.name || null`: the joined template's name. */
  function TemplateName(catalog: map<TemplateId, Template>, id: TemplateId): (r: Option<string>)
    ensures r.Some? ==> id in catalog && r.value == catalog[id].name && r.value != ""
    ensures id in catalog && catalog[id].id == id && catalog[id].name != "" ==> r == Some(catalog[id].name)
  {
    if id in catalog && catalog[id].id == id && catalog[id].name != "" then Some(catalog[id].name) else None
  }

  /** The handler's chain of early returns and its one conditional update.
      `readOk` says whether the lookup succeeds (its error is ignored, so a
      failed lookup reads as no row) and `writeOk` whether the update, if one
      is issued, succeeds. No row is added or removed; only the status and
      transaction id of a row can change; an error response writes nothing;
      and only a gateway SUCCESS or FAILED writes at all. */
  function Verify(rows: Rows, memo: Option<string>, user: Option<UserId>,
                  catalog: map<TemplateId, Template>, gateway: GatewayResult, readOk: bool, writeOk: bool): (s: Step<VerifyResponse>)
    ensures s.rows.Keys == rows.Keys
    ensures forall k :: k in rows ==>
      s.rows[k] == rows[k].(paymentStatus := s.rows[k].paymentStatus, transactionId := s.rows[k].transactionId)
    ensures s.response.VerifyError? ==> s.rows == rows
    ensures s.rows != rows ==> gateway.Payment? && (gateway.status == "SUCCESS" || gateway.status == "FAILED")
  {
    if !Truthy(memo) then Step(rows, VerifyError(400, "memo is required"))
    else if user.None? then Step(rows, VerifyError(401, "unauthorized"))
    else match Single(rows, ByMemoUser(memo.value, user.value), readOk)
      case None => Step(rows, VerifyError(404, "order_not_found"))
      case Some(p) =>
        var name := TemplateName(catalog, p.templateId);
        if p.paymentStatus == StatusCompleted then Step(rows, Report(StatusCompleted, name))
        else match gateway
          case Payment(status, trx) =>
            if status == "SUCCESS" then
              if writeOk then Step(SetStatus(rows, p.id, StatusCompleted, OrNull(trx)), Report(StatusCompleted, name))
              else Step(rows, Report(p.paymentStatus, name))
            else if status == "FAILED" then
              Step(if writeOk then SetStatus(rows, p.id, StatusFailed, OrNull(trx)) else rows, Report(StatusFailed, name))
            else Step(rows, Report(p.paymentStatus, name))
          case _ => Step(rows, Report(p.paymentStatus, name))
  }

  // ---------------------------------------------------------------------------
  // Properties of Verify

  /** A missing memo is rejected before authentication, then a missing
      session; neither touches the table. */
  lemma VerifyGuards(rows: Rows, memo: Option<string>, user: Option<UserId>,
                     catalog: map<TemplateId, Template>, gateway: GatewayResult, readOk: bool, writeOk: bool)
    ensures var s := Verify(rows, memo, user, catalog, gateway, readOk, writeOk);
      && (!Truthy(memo) ==> s == Step(rows, VerifyError(400, "memo is required")))
      && (Truthy(memo) && user.None? ==> s == Step(rows, VerifyError(401, "unauthorized")))
  {
  }

  /** The lookup is scoped to the caller: when no row with that memo belongs
      to the caller (rows of other users included), the answer is 404 and
      nothing is written. */
  lemma VerifyScopedToCaller(rows: Rows, memo: string, user: UserId,
                             catalog: map<TemplateId, Template>, gateway: GatewayResult, readOk: bool, writeOk: bool)
    requires memo != ""
    requires forall id :: id in rows && rows[id].memo == Some(memo) ==> rows[id].userId != user
    ensures Verify(rows, Some(memo), Some(user), catalog, gateway, readOk, writeOk)
         == Step(rows, VerifyError(404, "order_not_found"))
  {
    assert MatchingIds(rows, ByMemoUser(memo, user)) == {};
  }

  /** A failed lookup is not told apart from a missing row: the answer is 404
      and nothing is written, even when the caller's row exists. */
  lemma VerifyLookupFailureIsNotFound(rows: Rows, memo: string, user: UserId,
                                      catalog: map<TemplateId, Template>, gateway: GatewayResult, writeOk: bool)
    requires memo != ""
    ensures Verify(rows, Some(memo), Some(user), catalog, gateway, false, writeOk)
         == Step(rows, VerifyError(404, "order_not_found"))
  {
  }

  /** A completed row is reported as completed with no write, whatever the gateway says. */
  lemma VerifyCompletedShortCircuit(rows: Rows, memo: string, user: UserId,
                                    catalog: map<TemplateId, Template>, gateway: GatewayResult, readOk: bool, writeOk: bool)
    requires memo != ""
    requires var p := Single(rows, ByMemoUser(memo, user), readOk); p.Some? && p.value.paymentStatus == StatusCompleted
    ensures var p := Single(rows, ByMemoUser(memo, user), readOk).value;
      Verify(rows, Some(memo), Some(user), catalog, gateway, readOk, writeOk)
        == Step(rows, Report(StatusCompleted, TemplateName(catalog, p.templateId)))
  {
  }

  /** Verify never changes a completed row, and never changes any row but the
      caller's matched one. */
  lemma VerifyNeverTouchesCompleted(rows: Rows, memo: Option<string>, user: Option<UserId>,
                                    catalog: map<TemplateId, Template>, gateway: GatewayResult, readOk: bool, writeOk: bool)
    requires KeysMatchIds(rows)
    ensures var s := Verify(rows, memo, user, catalog, gateway, readOk, writeOk);
      s.rows.Keys == rows.Keys &&
      forall k :: k in rows && rows[k].paymentStatus == StatusCompleted ==> s.rows[k] == rows[k]
  {
    if Truthy(memo) && user.Some? && Single(rows, ByMemoUser(memo.value, user.value), readOk).Some? {
      SingleIsStored(rows, ByMemoUser(memo.value, user.value), readOk);
    }
  }

  /** Missing token, a failed request and an empty payment list all report
      the stored status and leave the table as it was. */
  lemma VerifyDegradesToStored(rows: Rows, memo: string, user: UserId,
                               catalog: map<TemplateId, Template>, gateway: GatewayResult, readOk: bool, writeOk: bool)
    requires memo != "" && (gateway.NoToken? || gateway.NotOk? || gateway.Empty?)
    requires Single(rows, ByMemoUser(memo, user), readOk).Some?
    ensures var p := Single(rows, ByMemoUser(memo, user), readOk).value;
      Verify(rows, Some(memo), Some(user), catalog, gateway, readOk, writeOk)
        == Step(rows, Report(p.paymentStatus, TemplateName(catalog, p.templateId)))
  {
  }

  /** Gateway SUCCESS on a row that is not completed sets only that row to
      completed with `near_trx || null`; when the update fails the response
      carries the old stored status and the table is unchanged. */
  lemma VerifySuccess(rows: Rows, memo: string, user: UserId,
                      catalog: map<TemplateId, Template>, nearTrx: Option<string>, readOk: bool, writeOk: bool)
    requires KeysMatchIds(rows)
    requires memo != ""
    requires var p := Single(rows, ByMemoUser(memo, user), readOk); p.Some? && p.value.paymentStatus != StatusCompleted
    ensures var p := Single(rows, ByMemoUser(memo, user), readOk).value;
      var name := TemplateName(catalog, p.templateId);
      var s := Verify(rows, Some(memo), Some(user), catalog, Payment("SUCCESS", nearTrx), readOk, writeOk);
      if writeOk then
        && s.response == Report(StatusCompleted, name)
        && s.rows.Keys == rows.Keys
        && s.rows[p.id] == p.(paymentStatus := StatusCompleted, transactionId := OrNull(nearTrx))
        && (forall k :: k in rows && k != p.id ==> s.rows[k] == rows[k])
      else
        s == Step(rows, Report(p.paymentStatus, name))
  {
    SingleIsStored(rows, ByMemoUser(memo, user), readOk);
  }

  /** Gateway FAILED reports failed whether or not the update succeeds; only
      the matched row can change, to failed with `near_trx || null`. */
  lemma VerifyFailed(rows: Rows, memo: string, user: UserId,
                     catalog: map<TemplateId, Template>, nearTrx: Option<string>, readOk: bool, writeOk: bool)
    requires KeysMatchIds(rows)
    requires memo != ""
    requires var p := Single(rows, ByMemoUser(memo, user), readOk); p.Some? && p.value.paymentStatus != StatusCompleted
    ensures var p := Single(rows, ByMemoUser(memo, user), readOk).value;
      var s := Verify(rows, Some(memo), Some(user), catalog, Payment("FAILED", nearTrx), readOk, writeOk);
      && s.response == Report(StatusFailed, TemplateName(catalog, p.templateId))
      && s.rows == (if writeOk then SetStatus(rows, p.id, StatusFailed, OrNull(nearTrx)) else rows)
  {
  }

  /** Any other gateway status reports the stored status and writes nothing. */
  lemma VerifyOtherStatus(rows: Rows, memo: string, user: UserId,
                          catalog: map<TemplateId, Template>, status: string, nearTrx: Option<string>, readOk: bool, writeOk: bool)
    requires memo != "" && status != "SUCCESS" && status != "FAILED"
    requires Single(rows, ByMemoUser(memo, user), readOk).Some?
    ensures var p := Single(rows, ByMemoUser(memo, user), readOk).value;
      Verify(rows, Some(memo), Some(user), catalog, Payment(status, nearTrx), readOk, writeOk)
        == Step(rows, Report(p.paymentStatus, TemplateName(catalog, p.templateId)))
  {
  }

  /** `failed` is not terminal for verify: a failed row whose memo is matched
      moves to completed on a later SUCCESS. */
  lemma VerifyFailedThenSuccess(rows: Rows, memo: string, user: UserId,
                                catalog: map<TemplateId, Template>, nearTrx: Option<string>, readOk: bool)
    requires KeysMatchIds(rows)
    requires memo != ""
    requires var p := Single(rows, ByMemoUser(memo, user), readOk); p.Some? && p.value.paymentStatus == StatusFailed
    ensures var p := Single(rows, ByMemoUser(memo, user), readOk).value;
      Verify(rows, Some(memo), Some(user), catalog, Payment("SUCCESS", nearTrx), readOk, true).rows[p.id].paymentStatus == StatusCompleted
  {
    SingleIsStored(rows, ByMemoUser(memo, user), readOk);
  }

  /** Verify keeps every row under its own id and never changes a memo. */
  lemma VerifyKeepsMemos(rows: Rows, memo: Option<string>, user: Option<UserId>,
                         catalog: map<TemplateId, Template>, gateway: GatewayResult, readOk: bool, writeOk: bool)
    requires KeysMatchIds(rows)
    ensures var r := Verify(rows, memo, user, catalog, gateway, readOk, writeOk).rows;
      KeysMatchIds(r) && r.Keys == rows.Keys && forall k :: k in r ==> r[k].memo == rows[k].memo
  {
  }
}
