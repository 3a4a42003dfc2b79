/**
 The result of one channel of a campaign, and how the push loop of
 `src/lib/admin-notification-ops-delivery.ts` counts its attempts.
 */
module CampaignDelivery {
  import WorkerPool
  import Protocol = PushDeliveryProtocol

  datatype ChannelResult = ChannelResult(targeted: int, sent: int, failed: int, skipped: int)

  const EMPTY_RESULT := ChannelResult(0, 0, 0, 0)

  /** Every targeted delivery is counted once, as sent or as failed. */
  predicate Balanced(r: ChannelResult) { r.sent + r.failed == r.targeted && r.sent >= 0 && r.failed >= 0 }

  // ---- push --------------------------------------------------------------------------------------

  function SentAttempts(outcomes: seq<Protocol.Outcome>): set<int> {
    set i | 0 <= i < |outcomes| && outcomes[i].SentOutcome?
  }

  /** Attempts that leave a warning of their own. */
  predicate Warns(outcome: Protocol.Outcome) {
    outcome.FailedOutcome? || outcome == Protocol.ProviderFailed(false) || outcome.Unreconciled?
  }

  function WarningAttempts(outcomes: seq<Protocol.Outcome>): set<int> {
    set i | 0 <= i < |outcomes| && Warns(outcomes[i])
  }

  /**
   The counters of `sendPushCampaignDeliveries`: the attempts end in any order, each one
   updates the shared counters when it does.
   */
  method CountPushDeliveries(outcomes: seq<Protocol.Outcome>) returns (r: ChannelResult, warnings: nat)
    ensures Balanced(r) && r.targeted == |outcomes| && r.skipped == 0
    ensures r.sent == |SentAttempts(outcomes)| && warnings == |WarningAttempts(outcomes)|
  {
    hide SentAttempts, WarningAttempts, Warns;
    var sent: nat, failed: nat := 0, 0;
    warnings := 0;
    var pending := WorkerPool.Below(|outcomes|);
    ghost var all := pending;
    while pending != {}
      invariant pending <= all && Counted(outcomes, all - pending, sent, failed, warnings)
      decreases pending
    {
      hide Counted, WorkerPool.Below;
      var i :| i in pending;
      CountOne(outcomes, all - pending, sent, failed, warnings, i);
      SettledNext(all, pending, i);
      sent, failed, warnings := CountOutcome(outcomes[i], sent, failed, warnings);
      pending := pending - {i};
    }
    AllSettled(outcomes, all, sent, failed, warnings);
    r := ChannelResult(|outcomes|, sent, failed, 0);
  }

  /** What one finished attempt adds. */
  method CountOutcome(outcome: Protocol.Outcome, sent: nat, failed: nat, warnings: nat)
    returns (sent': nat, failed': nat, warnings': nat)
    ensures sent' == if outcome.SentOutcome? then sent + 1 else sent
    ensures failed' == if outcome.SentOutcome? then failed else failed + 1
    ensures warnings' ==
      if outcome.SentOutcome? || outcome == Protocol.ProviderFailed(true) then warnings else warnings + 1
  {
    sent', failed', warnings' := sent, failed, warnings;
    match outcome {
      case FailedOutcome =>
        failed' := failed' + 1;
        warnings' := warnings' + 1;
      case ProviderFailed(confirmed) =>
        failed' := failed' + 1;
        if !confirmed {
          warnings' := warnings' + 1;
        }
      case SentOutcome(_) =>
        sent' := sent' + 1;
      case Unreconciled =>
        failed' := failed' + 1;
        warnings' := warnings' + 1;
    }
  }

  /** The counters after a set of attempts has settled. */
  ghost predicate Counted(outcomes: seq<Protocol.Outcome>, settled: set<int>, sent: nat, failed: nat, warnings: nat) {
    && sent == |settled * SentAttempts(outcomes)| && sent + failed == |settled|
    && warnings == |settled * WarningAttempts(outcomes)|
  }

  /** One more attempt counts once as sent or failed, and as a warning unless it needs none. */
  lemma CountOne(outcomes: seq<Protocol.Outcome>, settled: set<int>, sent: nat, failed: nat, warnings: nat, i: int)
    requires Counted(outcomes, settled, sent, failed, warnings) && 0 <= i < |outcomes| && i !in settled
    ensures var isSent := outcomes[i].SentOutcome?;
      var warns := !isSent && outcomes[i] != Protocol.ProviderFailed(true);
      Counted(outcomes, settled + {i}, if isSent then sent + 1 else sent, if isSent then failed else failed + 1,
              if warns then warnings + 1 else warnings)
  {
    Membership(outcomes, i);
    GrowBy(settled, i, SentAttempts(outcomes));
    GrowBy(settled, i, WarningAttempts(outcomes));
    hide SentAttempts, WarningAttempts;
  }

  lemma Membership(outcomes: seq<Protocol.Outcome>, i: int)
    requires 0 <= i < |outcomes|
    ensures i in SentAttempts(outcomes) <==> outcomes[i].SentOutcome?
    ensures i in WarningAttempts(outcomes) <==>
      !outcomes[i].SentOutcome? && outcomes[i] != Protocol.ProviderFailed(true)
  {
  }

  lemma SettledNext<T>(all: set<T>, pending: set<T>, i: T)
    requires pending <= all && i in pending
    ensures all - (pending - {i}) == all - pending + {i}
  {
  }

  lemma AllSettled(outcomes: seq<Protocol.Outcome>, all: set<int>, sent: nat, failed: nat, warnings: nat)
    requires all == WorkerPool.Below(|outcomes|) && Counted(outcomes, all - {}, sent, failed, warnings)
    ensures sent == |SentAttempts(outcomes)| && sent + failed == |outcomes| && warnings == |WarningAttempts(outcomes)|
  {
    assert all - {} == all;
    assert all * SentAttempts(outcomes) == SentAttempts(outcomes);
    assert all * WarningAttempts(outcomes) == WarningAttempts(outcomes);
  }

  lemma GrowBy(settled: set<int>, i: int, chosen: set<int>)
    requires i !in settled
    ensures |(settled + {i}) * chosen| == |settled * chosen| + if i in chosen then 1 else 0
  {
    if i in chosen {
      assert (settled + {i}) * chosen == settled * chosen + {i};
    } else {
      assert (settled + {i}) * chosen == settled * chosen;
    }
  }
}
