/** The client status page (`/payment/status?memo=...`): `checkStatus` reads
    the caller's purchase by memo and maps it to a displayed state; `poll`
    repeats the check until a result settles the page or polling is cancelled.
    Timers are abstracted: `snapshots[i]` is the purchases table as the i-th
    check reads it (None when that read fails; its error is ignored), and
    `cancelAt` is how many check results arrive before the `cancelled` flag
    is set (the 5-minute cap or the effect's cleanup). One `Poll` is one run
    of the effect. */
module PaymentStatusPage {
  import opened Types
  import opened PurchaseTable

  datatype PaymentState = Polling | Completed | Failed | NotFound

  /** The displayed state of a stored payment_status. */
  function StateOf(stored: string): (s: PaymentState)
    ensures s == Completed <==> stored == StatusCompleted
    ensures s == Failed <==> stored == StatusFailed
    ensures s == Polling <==> stored != StatusCompleted && stored != StatusFailed
    ensures s != NotFound
  {
    if stored == StatusCompleted then Completed
    else if stored == StatusFailed then Failed
    else Polling
  }

  /** `checkStatus()`: null without a memo or a user; not_found when the read
      fails or does not find exactly one row for (memo, user); otherwise the
      state of that row. */
  function CheckStatus(snapshot: Option<Rows>, memo: Option<string>, user: Option<UserId>): (r: Option<PaymentState>)
    ensures r.None? <==> !Truthy(memo) || user.None?
    ensures r == Some(NotFound) <==>
      Truthy(memo) && user.Some? &&
      (snapshot.None? || |MatchingIds(snapshot.value, ByMemoUser(memo.value, user.value))| != 1)
    ensures r.Some? && r.value != NotFound ==>
      snapshot.Some? &&
      exists id :: id in snapshot.value && snapshot.value[id].memo == memo && snapshot.value[id].userId == user.value
                   && r.value == StateOf(snapshot.value[id].paymentStatus)
  {
    if !Truthy(memo) || user.None? then None
    else
      var rows := if snapshot.Some? then snapshot.value else map[];
      match Single(rows, ByMemoUser(memo.value, user.value), snapshot.Some?)
      case None => Some(NotFound)
      case Some(p) =>
        assert exists id :: id in rows && rows[id] == p by {
          var id :| id in MatchingIds(rows, ByMemoUser(memo.value, user.value));
        }
        Some(StateOf(p.paymentStatus))
  }

  /** A result that ends polling: present and not `polling`. */
  predicate Settles(r: Option<PaymentState>) {
    r.Some? && r.value != Polling
  }

  /** The results the successive checks return. */
  function Results(snapshots: seq<Option<Rows>>, memo: Option<string>, user: Option<UserId>): (r: seq<Option<PaymentState>>)
    ensures |r| == |snapshots|
    ensures forall i :: 0 <= i < |r| ==> r[i] == CheckStatus(snapshots[i], memo, user)
  {
    seq(|snapshots|, i requires 0 <= i < |snapshots| => CheckStatus(snapshots[i], memo, user))
  }

  /** The displayed state polling ends with, and how many check results it
      consumed, when it has consumed `i` results so far. A result that arrives
      after cancellation is consumed and ignored. */
  function PollFrom(results: seq<Option<PaymentState>>, cancelAt: nat, i: nat): (PaymentState, nat)
    requires i <= |results|
    decreases |results| - i
  {
    if i == |results| then (Polling, i)
    else if i >= cancelAt then (Polling, i + 1)
    else if Settles(results[i]) then (results[i].value, i + 1)
    else PollFrom(results, cancelAt, i + 1)
  }

  /** The effect and its `poll` loop. Nothing is written to the table. */
  method Poll(memo: Option<string>, user: Option<UserId>, snapshots: seq<Option<Rows>>, cancelAt: nat)
    returns (shown: PaymentState, checks: nat)
    ensures checks <= |snapshots|
    ensures !Truthy(memo) || user.None? ==> shown == Polling && checks == 0
    ensures Truthy(memo) && user.Some? ==> (shown, checks) == PollFrom(Results(snapshots, memo, user), cancelAt, 0)
  {
    shown, checks := Polling, 0;
    if !Truthy(memo) || user.None? {
      return;
    }
    ghost var results := Results(snapshots, memo, user);
    var cancelled := false;
    var stopped := false;
    while !stopped && checks < |snapshots|
      invariant checks <= |snapshots|
      invariant !stopped ==> shown == Polling && !cancelled
      invariant PollFrom(results, cancelAt, 0) == if stopped then (shown, checks) else PollFrom(results, cancelAt, checks)
      decreases |snapshots| - checks
    {
      var result := CheckStatus(snapshots[checks], memo, user);
      checks := checks + 1;
      cancelled := checks > cancelAt;
      if cancelled {
        stopped := true;
      } else if result.Some? && result.value != Polling {
        shown := result.value;
        stopped := true;
      }
    }
  }

  // ---------------------------------------------------------------------------
  // Properties of the polling loop

  /** Polling stops at the first settling result that arrives before
      cancellation, and displays it. */
  lemma {:induction false} PollStopsAtFirstSettled(results: seq<Option<PaymentState>>, cancelAt: nat, k: nat, i: nat)
    requires k <= i < |results| && i < cancelAt && Settles(results[i])
    requires forall j :: k <= j < i ==> !Settles(results[j])
    ensures PollFrom(results, cancelAt, k) == (results[i].value, i + 1)
    decreases i - k
  {
    if k < i {
      PollStopsAtFirstSettled(results, cancelAt, k + 1, i);
    }
  }

  /** Null and `polling` results only reschedule: with no settling result
      before cancellation, the page keeps showing `polling`. */
  lemma {:induction false} PollKeepsPolling(results: seq<Option<PaymentState>>, cancelAt: nat, k: nat)
    requires k <= |results|
    requires forall j :: k <= j < |results| && j < cancelAt ==> !Settles(results[j])
    ensures PollFrom(results, cancelAt, k).0 == Polling
    decreases |results| - k
  {
    if k < |results| && k < cancelAt {
      PollKeepsPolling(results, cancelAt, k + 1);
    }
  }

  /** Results that arrive after cancellation are ignored: the displayed state
      depends only on the first `cancelAt` results. */
  lemma {:induction false} PollIgnoresAfterCancel(results: seq<Option<PaymentState>>, other: seq<Option<PaymentState>>,
                                                  cancelAt: nat, k: nat)
    requires k <= cancelAt <= |results| && cancelAt <= |other|
    requires results[..cancelAt] == other[..cancelAt]
    ensures PollFrom(results, cancelAt, k).0 == PollFrom(other, cancelAt, k).0
    decreases cancelAt - k
  {
    if k < cancelAt {
      assert results[k] == results[..cancelAt][k] == other[..cancelAt][k] == other[k];
      PollIgnoresAfterCancel(results, other, cancelAt, k + 1);
    }
  }

  /** There is no grace window: when the first check fails or finds no row
      for (memo, user), the page shows not_found after exactly one check. */
  lemma FirstMissIsFinal(snapshots: seq<Option<Rows>>, memo: string, user: UserId, cancelAt: nat)
    requires memo != "" && |snapshots| >= 1 && cancelAt >= 1
    requires snapshots[0].Some? ==>
      forall id :: id in snapshots[0].value ==> snapshots[0].value[id].memo != Some(memo) || snapshots[0].value[id].userId != user
    ensures PollFrom(Results(snapshots, Some(memo), Some(user)), cancelAt, 0) == (NotFound, 1)
  {
    if snapshots[0].Some? {
      assert MatchingIds(snapshots[0].value, ByMemoUser(memo, user)) == {};
    }
  }
}
