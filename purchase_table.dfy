/** The purchases table as a map from row id to row, the two filtered
    `.single()` lookups the handlers make, and the row updates they issue. */
module PurchaseTable {
  import opened Types

  type Rows = map<Id, Purchase>

  /** What one handler call leaves behind: the table after it and its response. */
  datatype Step<R> = Step(rows: Rows, response: R)

  /** The database keeps every row under its own id. */
  ghost predicate KeysMatchIds(rows: Rows) {
    forall id :: id in rows ==> rows[id].id == id
  }

  /** No two rows carry the same non-null memo. */
  ghost predicate MemosDistinct(rows: Rows) {
    forall i, j :: i in rows && j in rows && i != j && rows[i].memo.Some? ==> rows[i].memo != rows[j].memo
  }

  /** No row carries memo `m` (what a fresh `randomUUID` stands for). */
  ghost predicate MemoFresh(rows: Rows, m: string) {
    forall i :: i in rows ==> rows[i].memo != Some(m)
  }

  /** The `.eq(...)` filters of the lookups. */
  datatype Filter =
    | ByUserTemplate(user: UserId, template: TemplateId)
    | ByMemoUser(memo: string, user: UserId)

  predicate Matches(p: Purchase, f: Filter) {
    match f
    case ByUserTemplate(u, t) => p.userId == u && p.templateId == t
    case ByMemoUser(m, u) => p.memo == Some(m) && p.userId == u
  }

  function MatchingIds(rows: Rows, f: Filter): set<Id> {
    set id | id in rows && Matches(rows[id], f)
  }

  lemma SingletonAllEqual(s: set<Id>)
    requires |s| == 1
    ensures forall a, b :: a in s && b in s ==> a == b
  {
    var a :| a in s;
    assert |s - {a}| == 0;
    assert s == {a};
  }

  /** `.select(...).eq(...).single()`: a row only when the read succeeds and
      exactly one row matches; a failed read (`readOk` false, its error
      ignored by every caller), no match and several matches all give no data. */
  function Single(rows: Rows, f: Filter, readOk: bool): (r: Option<Purchase>)
    ensures r.Some? <==> readOk && |MatchingIds(rows, f)| == 1
    ensures r.Some? ==> Matches(r.value, f)
    ensures r.Some? ==> forall id :: id in rows && Matches(rows[id], f) ==> rows[id] == r.value
  {
    var ids := MatchingIds(rows, f);
    if readOk && |ids| == 1 then
      SingletonAllEqual(ids);
      var id :| id in ids;
      assert forall k :: k in rows && Matches(rows[k], f) ==> k in ids;
      Some(rows[id])
    else None
  }

  /** Under KeysMatchIds the row found is stored under its own id. */
  lemma SingleIsStored(rows: Rows, f: Filter, readOk: bool)
    requires KeysMatchIds(rows)
    requires Single(rows, f, readOk).Some?
    ensures Single(rows, f, readOk).value.id in rows
    ensures rows[Single(rows, f, readOk).value.id] == Single(rows, f, readOk).value
  {
    var id :| id in MatchingIds(rows, f);
  }

  /** `.update({payment_status, transaction_id}).eq("id", id)`. */
  function SetStatus(rows: Rows, id: Id, status: string, txn: Option<string>): (r: Rows)
    ensures r.Keys == rows.Keys
    ensures forall k :: k in rows && k != id ==> r[k] == rows[k]
    ensures id in rows ==> r[id] == rows[id].(paymentStatus := status, transactionId := txn)
  {
    if id in rows then rows[id := rows[id].(paymentStatus := status, transactionId := txn)] else rows
  }

  /** `.update({memo, payment_status: "pending", amount}).eq("id", id)`. */
  function Rearm(rows: Rows, id: Id, memo: string, amount: int): (r: Rows)
    ensures r.Keys == rows.Keys
    ensures forall k :: k in rows && k != id ==> r[k] == rows[k]
    ensures id in rows ==> r[id] == rows[id].(memo := Some(memo), paymentStatus := StatusPending, amount := amount)
  {
    if id in rows then rows[id := rows[id].(memo := Some(memo), paymentStatus := StatusPending, amount := amount)] else rows
  }

  /** Giving one row a fresh memo keeps memos distinct. */
  lemma RearmKeepsMemosDistinct(rows: Rows, id: Id, memo: string, amount: int)
    requires MemosDistinct(rows) && MemoFresh(rows, memo)
    ensures MemosDistinct(Rearm(rows, id, memo, amount))
  {
    var r := Rearm(rows, id, memo, amount);
    forall i, j | i in r && j in r && i != j && r[i].memo.Some?
      ensures r[i].memo != r[j].memo
    {
      if i == id || j == id {
        assert r[id].memo == Some(memo);
      } else {
        assert r[i] == rows[i] && r[j] == rows[j];
      }
    }
  }

  /** Adding a row under a new id with a fresh memo keeps memos distinct. */
  lemma InsertKeepsMemosDistinct(rows: Rows, id: Id, p: Purchase, memo: string)
    requires MemosDistinct(rows) && MemoFresh(rows, memo)
    requires id !in rows && p.memo == Some(memo)
    ensures MemosDistinct(rows[id := p])
  {
  }

  /** A status update keeps every row's memo, so it keeps memos distinct. */
  lemma SetStatusKeepsMemos(rows: Rows, id: Id, status: string, txn: Option<string>)
    ensures var r := SetStatus(rows, id, status, txn);
      forall k :: k in r ==> r[k].memo == rows[k].memo && r[k].id == rows[k].id
  {
  }
}
