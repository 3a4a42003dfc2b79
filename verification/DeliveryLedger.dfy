/**
 The push delivery ledger: the database functions `claim_notification_delivery` and
 `transition_notification_delivery`, which the repository defines in its migration
 `20260831051425_make_notification_campaign_delivery_retry_safe.sql`. Each runs as one
 transaction on the single row that the unique idempotency-key index allows.
 */
module DeliveryLedger {
  import opened Wrappers

  datatype Status = Pending | Sent | Failed

  datatype ProviderStatus = Claimed | Sending | Delivered | Refused | NeedsReconciliation

  /** One row, with the instant (in seconds) of its last change. */
  datatype Row = Row(status: Status, provider: ProviderStatus, updatedAt: int)

  datatype Transition = ToSending | ToSent | ToFailed | ToNeedsReconciliation

  datatype Disposition = Granted | AlreadySent | AwaitsReconciliation | InProgress

  /** The claim: the row afterwards and the disposition returned to the caller. */
  function Claim(found: Option<Row>, now: int, leaseSeconds: int): (Row, Disposition) {
    match found
    case None => (Row(Pending, Claimed, now), Granted)
    case Some(row) =>
      var stale := row.updatedAt <= now - leaseSeconds;
      if row.status.Sent? then (row, AlreadySent)
      else if row.provider.NeedsReconciliation? then (row, AwaitsReconciliation)
      else if row.status.Failed? then (Row(Pending, Claimed, now), Granted)
      else if row.provider.Claimed? && stale then (row.(updatedAt := now), Granted)
      else if row.provider.Sending? && stale then
        (row.(provider := NeedsReconciliation, updatedAt := now), AwaitsReconciliation)
      else (row, InProgress)
  }

  /** The transition: the row afterwards and whether a row was updated. */
  function Move(row: Row, to: Transition, now: int): (Row, bool) {
    match to
    case ToSending =>
      if row.status.Pending? && row.provider.Claimed? then (row.(provider := Sending, updatedAt := now), true)
      else (row, false)
    case ToSent =>
      if row.status.Pending? && row.provider.Sending? then (Row(Sent, Delivered, now), true) else (row, false)
    case ToFailed =>
      if row.status.Pending? && row.provider.Sending? then (Row(Failed, Refused, now), true) else (row, false)
    case ToNeedsReconciliation =>
      if row.status.Pending? && (row.provider.Claimed? || row.provider.Sending?)
      then (row.(provider := NeedsReconciliation, updatedAt := now), true)
      else (row, false)
  }

  /** The two status columns always agree in one of five ways. */
  predicate WellFormed(row: Row) {
    match row.status
    case Pending => row.provider.Claimed? || row.provider.Sending? || row.provider.NeedsReconciliation?
    case Sent => row.provider.Delivered?
    case Failed => row.provider.Refused?
  }

  /** Rows no later request can change: delivered, or waiting for a person. */
  predicate Settled(row: Row) {
    row.status.Sent? || row.provider.NeedsReconciliation?
  }

  /** No later request of either kind changes the row or is granted anything. */
  ghost predicate Frozen(row: Row) {
    && (forall to, now :: Move(row, to, now) == (row, false))
    && (forall now, lease :: Claim(Some(row), now, lease).0 == row && !Claim(Some(row), now, lease).1.Granted?)
  }

  lemma SettledExactlyWhenFrozen(row: Row)
    requires WellFormed(row)
    ensures Settled(row) <==> Frozen(row)
  {
    if Frozen(row) {
      assert Move(row, ToSending, 0) == Move(row, ToSent, 0) == (row, false);
      assert !Claim(Some(row), 0, 0).1.Granted?;
    }
  }

  /**
   The lease: a claim is granted for a key that is new, has failed, or was claimed and then left alone for
   the whole lease without a `sending` mark. A key left alone after the mark waits for a person from then on.
   */
  lemma ClaimDecides(found: Option<Row>, now: int, lease: int)
    requires found.Some? ==> WellFormed(found.value)
    ensures var (after, disposition) := Claim(found, now, lease);
      var idle := if found.Some? then now - found.value.updatedAt else 0;
      && WellFormed(after)
      && (disposition.Granted? <==>
            found.None? || found.value.status.Failed? || (found.value.provider.Claimed? && idle >= lease))
      && (disposition.AlreadySent? <==> found.Some? && found.value.status.Sent?)
      && (disposition.InProgress? <==>
            found.Some? && (found.value.provider.Claimed? || found.value.provider.Sending?) && idle < lease)
      && after ==
        (if disposition.Granted? then Row(Pending, Claimed, now)
         else if found.value.provider.Sending? && idle >= lease then Row(Pending, NeedsReconciliation, now)
         else found.value)
  {
  }

  /** A transition goes through exactly from the state before it, and to the state it names. */
  lemma MoveDecides(row: Row, to: Transition, now: int)
    requires WellFormed(row)
    ensures var (after, ok) := Move(row, to, now);
      && WellFormed(after) && (!ok ==> after == row) && (ok ==> after.updatedAt == now)
      && match to
         case ToSending => (ok <==> row.provider.Claimed?) && (ok ==> after.provider.Sending?)
         case ToSent => (ok <==> row.provider.Sending?) && (ok ==> after.status.Sent?)
         case ToFailed => (ok <==> row.provider.Sending?) && (ok ==> after.status.Failed?)
         case ToNeedsReconciliation =>
           (ok <==> row.provider.Claimed? || row.provider.Sending?) && (ok ==> after.provider.NeedsReconciliation?)
  {
  }
}
