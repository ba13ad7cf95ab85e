/** Record shapes of the purchases and templates tables, and the JavaScript
    truthiness of optional string fields that every handler tests. */
module Types {

  datatype Option<+T> = None | Some(value: T)

  type Id = string          // purchases.id
  type UserId = string      // auth user id
  type TemplateId = string  // templates.id

  /** Stored payment_status values the handlers write. */
  const StatusPending := "pending"
  const StatusCompleted := "completed"
  const StatusFailed := "failed"

  /** One row of the purchases table. `amount` is in integer cents. */
  datatype Purchase = Purchase(
    id: Id,
    userId: UserId,
    templateId: TemplateId,
    transactionId: Option<string>,
    memo: Option<string>,
    paymentStatus: string,
    amount: int,
    currency: string,
    purchasedAt: string)

  /** The columns of a templates row that the core reads. `price` is in integer cents. */
  datatype Template = Template(
    id: TemplateId,
    name: string,
    price: int,
    category: string,
    hotpayItemId: Option<string>,
    isActive: bool)

  /** A string value (or null/undefined) is truthy when present and non-empty. */
  predicate Truthy(s: Option<string>) {
    s.Some? && s.value != ""
  }

  /** `s || null`: a falsy value becomes null. */
  function OrNull(s: Option<string>): Option<string> {
    if Truthy(s) then s else None
  }
}
