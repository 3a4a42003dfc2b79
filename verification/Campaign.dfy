/**
 A whole campaign: the channel results of `sendAdminNotificationCampaign` in
 `src/lib/admin-notification-ops.ts` and the status computed from them in
 `src/lib/admin-notification-ops-utils.ts`.
 */
module Campaign {
  import opened CampaignAudience
  import opened CampaignDelivery
  import opened MattermostDelivery
  import WorkerPool
  import Protocol = PushDeliveryProtocol

  datatype Status = NoTarget | AllFailed | PartialFailed | AllSent

  /** `computeOperationStatus`. */
  function ComputeStatus(results: PerChannel<ChannelResult>): Status {
    var targeted := results.inApp.targeted + results.push.targeted + results.mm.targeted;
    var sent := results.inApp.sent + results.push.sent + results.mm.sent;
    var failed := results.inApp.failed + results.push.failed + results.mm.failed;
    if targeted == 0 then NoTarget
    else if sent == 0 then AllFailed
    else if failed > 0 then PartialFailed
    else AllSent
  }

  /** On balanced results the status says exactly how many of the targeted deliveries were sent. */
  lemma StatusOfBalanced(results: PerChannel<ChannelResult>)
    requires forall c :: Balanced(results.At(c))
    ensures var targeted := results.inApp.targeted + results.push.targeted + results.mm.targeted;
      match ComputeStatus(results)
      case NoTarget => forall c :: results.At(c).targeted == 0
      case AllFailed => targeted > 0 && forall c :: results.At(c).sent == 0
      case PartialFailed => (exists c :: results.At(c).sent > 0) &&
        exists c :: results.At(c).sent < results.At(c).targeted
      case AllSent => targeted > 0 && forall c :: results.At(c).sent == results.At(c).targeted
  {
    assert Balanced(results.At(InApp)) && Balanced(results.At(Push)) && Balanced(results.At(Mattermost));
    if ComputeStatus(results).PartialFailed? {
      var c := if results.inApp.failed > 0 then InApp else if results.push.failed > 0 then Push else Mattermost;
      assert results.At(c).sent < results.At(c).targeted;
      var d := if results.inApp.sent > 0 then InApp else if results.push.sent > 0 then Push else Mattermost;
      assert results.At(d).sent > 0;
    }
  }

  /** How the targeted deliveries of a campaign went: one outcome per subscription, one session per generation. */
  datatype Fate = Fate(outcomes: seq<Protocol.Outcome>, sessions: int -> Session)

  function Recipients(ctx: Context, members: seq<Member>): seq<Member> {
    MattermostMembers(members, EligibleIds(ctx, members, Mattermost))
  }

  function Skipped(ctx: Context, members: seq<Member>, c: Channel): int {
    |members| - |EligibleIds(ctx, members, c)|
  }

  /** The result of a channel, in terms of the audience and of what happened to each delivery. */
  function ExpectedOn(
    ctx: Context, members: seq<Member>, selected: seq<Channel>, fate: Fate, c: Channel): ChannelResult
  {
    if c !in selected then EMPTY_RESULT
    else
      match c
      case InApp =>
        var eligible := |EligibleIds(ctx, members, InApp)|;
        ChannelResult(eligible, eligible, 0, Skipped(ctx, members, InApp))
      case Push =>
        var targeted, sent := |PushTargets(ctx, members)|, |SentAttempts(fate.outcomes)|;
        ChannelResult(targeted, sent, targeted - sent, Skipped(ctx, members, Push))
      case Mattermost =>
        var targeted, sent := |EligibleIds(ctx, members, Mattermost)|, Reached(Recipients(ctx, members), fate.sessions);
        ChannelResult(targeted, sent, targeted - sent, Skipped(ctx, members, Mattermost))
  }

  function Expected(ctx: Context, members: seq<Member>, selected: seq<Channel>, fate: Fate): PerChannel<ChannelResult> {
    PerChannel(ExpectedOn(ctx, members, selected, fate, InApp), ExpectedOn(ctx, members, selected, fate, Push),
               ExpectedOn(ctx, members, selected, fate, Mattermost))
  }

  lemma ExpectedIsBalanced(ctx: Context, members: seq<Member>, selected: seq<Channel>, fate: Fate, c: Channel)
    requires DistinctIds(members) && |fate.outcomes| == |PushTargets(ctx, members)|
    ensures Balanced(ExpectedOn(ctx, members, selected, fate, c))
  {
    hide EligibleIds, PushTargets, SentAttempts, Reached, DistinctIds, MattermostMembers;
    MattermostTargets(ctx, members);
    AllReached(Recipients(ctx, members), fate.sessions);
    EveryAttempt(fate.outcomes);
  }

  /** `channelResults.push`. */
  method PushResult(ctx: Context, members: seq<Member>, selected: seq<Channel>, fate: Fate, eligible: seq<MemberId>)
    returns (r: ChannelResult)
    requires Push in selected && eligible == EligibleIds(ctx, members, Push)
    requires |fate.outcomes| == |PushTargets(ctx, members)|
    ensures r == ExpectedOn(ctx, members, selected, fate, Push)
  {
    hide EligibleIds, PushTargets, SentAttempts;
    var pushResult, _ := CountPushDeliveries(fate.outcomes);
    r := pushResult.(skipped := |members| - |eligible|);
  }

  /** `channelResults.mm`: the recipients are looked up among the eligible ids. */
  method MattermostResult(
    ctx: Context, members: seq<Member>, selected: seq<Channel>, fate: Fate, eligible: seq<MemberId>)
    returns (r: ChannelResult)
    requires Mattermost in selected && eligible == EligibleIds(ctx, members, Mattermost) && DistinctIds(members)
    ensures r == ExpectedOn(ctx, members, selected, fate, Mattermost)
  {
    hide EligibleIds, Reached, DistinctIds, MattermostMembers;
    var recipients := MattermostMembers(members, eligible);
    var mmResult, _ := SendMattermostDeliveries(recipients, fate.sessions);
    MattermostTargets(ctx, members);
    r := mmResult.(skipped := |members| - |eligible|);
  }

  /** The channel results of `sendAdminNotificationCampaign`, filled in channel by channel. */
  method SendCampaign(ctx: Context, members: seq<Member>, selected: seq<Channel>, fate: Fate)
    returns (results: PerChannel<ChannelResult>, reasons: PerChannel<Counts>, status: Status)
    requires DistinctChannels(selected) && DistinctIds(members)
    requires |fate.outcomes| == |PushTargets(ctx, members)|
    ensures results == Expected(ctx, members, selected, fate) && forall c :: Balanced(results.At(c))
    ensures Tallied(reasons, ctx, members, selected)
    ensures forall c :: c in selected ==> results.At(c).skipped == Total(reasons.At(c))
    ensures forall c :: c !in selected ==> results.At(c) == ChannelResult(0, 0, 0, 0)
    ensures status == ComputeStatus(results)
  {
    hide EligibleIds, PushTargets, SentAttempts, Reached, Tallied, DistinctIds, MattermostMembers, Total, Balanced;
    hide ComputeStatus;
    var a := BuildAudience(ctx, members, selected);
    reasons := a.reasons;
    results := PerChannel(EMPTY_RESULT, EMPTY_RESULT, EMPTY_RESULT);
    if InApp in selected {
      var eligible := |a.eligible.inApp|;
      results := results.(inApp := ChannelResult(eligible, eligible, 0, |members| - eligible));
    }
    if Push in selected {
      var r := PushResult(ctx, members, selected, fate, a.eligible.push);
      results := results.(push := r);
    }
    if Mattermost in selected {
      var r := MattermostResult(ctx, members, selected, fate, a.eligible.mm);
      results := results.(mm := r);
    }
    ResultFacts(ctx, members, selected, fate, reasons);
    status := ComputeStatus(results);
  }

  /** Balance of every result; whom a selected channel skips is counted under some reason. */
  lemma ResultFacts(ctx: Context, members: seq<Member>, selected: seq<Channel>, fate: Fate, reasons: PerChannel<Counts>)
    requires DistinctIds(members) && |fate.outcomes| == |PushTargets(ctx, members)| &&
      Tallied(reasons, ctx, members, selected)
    ensures forall c :: Balanced(Expected(ctx, members, selected, fate).At(c))
    ensures forall c :: c in selected ==> Expected(ctx, members, selected, fate).At(c).skipped == Total(reasons.At(c))
  {
    hide EligibleIds, PushTargets, SentAttempts, Reached, Tallied, DistinctIds, MattermostMembers, Total, Balanced;
    forall c ensures Balanced(Expected(ctx, members, selected, fate).At(c)) {
      ExpectedIsBalanced(ctx, members, selected, fate, c);
    }
    forall c | c in selected ensures Expected(ctx, members, selected, fate).At(c).skipped == Total(reasons.At(c)) {
      AudienceConserved(ctx, members, selected, reasons, c);
    }
  }

  /**
   A campaign is reported as sent exactly when something was targeted, every push attempt of a
   selected push channel ended as sent, and a message reached every Mattermost recipient.
   */
  lemma SentMeansEverything(ctx: Context, members: seq<Member>, selected: seq<Channel>, fate: Fate)
    requires DistinctIds(members) && |fate.outcomes| == |PushTargets(ctx, members)|
    ensures ComputeStatus(Expected(ctx, members, selected, fate)).AllSent? <==>
      SomethingTargeted(ctx, members, selected) &&
      (Push in selected ==> forall i :: 0 <= i < |fate.outcomes| ==> fate.outcomes[i].SentOutcome?) &&
      (Mattermost in selected ==> forall m :: m in Recipients(ctx, members) ==> Delivered(fate.sessions, m))
  {
    hide EligibleIds, PushTargets, SentAttempts, Reached, DistinctIds, MattermostMembers, Delivered, ComputeStatus;
    hide Balanced;
    var results := Expected(ctx, members, selected, fate);
    forall c ensures Balanced(results.At(c)) { ExpectedIsBalanced(ctx, members, selected, fate, c); }
    AllSentMeans(results);
    PushAllSent(ctx, members, selected, fate);
    MattermostAllSent(ctx, members, selected, fate);
    assert results.inApp.sent == results.inApp.targeted;
  }

  lemma AllSentMeans(results: PerChannel<ChannelResult>)
    requires forall c :: Balanced(results.At(c))
    ensures ComputeStatus(results).AllSent? <==>
      (results.inApp.targeted > 0 || results.push.targeted > 0 || results.mm.targeted > 0) &&
      results.inApp.sent == results.inApp.targeted && results.push.sent == results.push.targeted &&
      results.mm.sent == results.mm.targeted
  {
    assert Balanced(results.At(InApp)) && Balanced(results.At(Push)) && Balanced(results.At(Mattermost));
  }

  lemma PushAllSent(ctx: Context, members: seq<Member>, selected: seq<Channel>, fate: Fate)
    requires |fate.outcomes| == |PushTargets(ctx, members)|
    ensures var r := ExpectedOn(ctx, members, selected, fate, Push);
      && (r.targeted > 0 <==> Push in selected && PushTargets(ctx, members) != [])
      && (r.sent == r.targeted <==>
          (Push in selected ==> forall i :: 0 <= i < |fate.outcomes| ==> fate.outcomes[i].SentOutcome?))
  {
    hide EligibleIds, PushTargets, SentAttempts;
    EveryAttempt(fate.outcomes);
  }

  lemma MattermostAllSent(ctx: Context, members: seq<Member>, selected: seq<Channel>, fate: Fate)
    requires DistinctIds(members)
    ensures var r := ExpectedOn(ctx, members, selected, fate, Mattermost);
      && (r.targeted > 0 <==> Mattermost in selected && EligibleIds(ctx, members, Mattermost) != [])
      && (r.sent == r.targeted <==>
          (Mattermost in selected ==> forall m :: m in Recipients(ctx, members) ==> Delivered(fate.sessions, m)))
  {
    hide EligibleIds, Reached, DistinctIds, MattermostMembers, Delivered;
    MattermostTargets(ctx, members);
    AllReached(Recipients(ctx, members), fate.sessions);
  }

  predicate SomethingTargeted(ctx: Context, members: seq<Member>, selected: seq<Channel>) {
    (InApp in selected && EligibleIds(ctx, members, InApp) != []) ||
    (Push in selected && PushTargets(ctx, members) != []) ||
    (Mattermost in selected && EligibleIds(ctx, members, Mattermost) != [])
  }

  lemma EveryAttempt(outcomes: seq<Protocol.Outcome>)
    ensures |SentAttempts(outcomes)| <= |outcomes|
    ensures |SentAttempts(outcomes)| == |outcomes| <==> forall i :: 0 <= i < |outcomes| ==> outcomes[i].SentOutcome?
  {
    var sent, all := SentAttempts(outcomes), WorkerPool.Below(|outcomes|);
    WorkerPool.SubsetSize(sent, all);
    if |sent| == |outcomes| {
      assert |all - sent| == 0 by { assert all == sent + (all - sent); }
      forall i | 0 <= i < |outcomes| ensures outcomes[i].SentOutcome? {
        assert i in all;
        assert i !in all - sent;
      }
    }
    if forall i :: 0 <= i < |outcomes| ==> outcomes[i].SentOutcome? {
      assert sent == all;
    }
  }

  /** `providerIdempotencyKey`. */
  function KeyFor(notificationId: string, sub: Subscription): Protocol.Key {
    "ssartnership:" + notificationId + ":push:" + sub.id
  }

  lemma KeyIsWritten()
    ensures KeyFor("42", Subscription("7", 1)) == "ssartnership:42:push:7"
  {
  }

  lemma KeyNamesSubscription(notificationId: string, sub: Subscription, other: Subscription)
    requires KeyFor(notificationId, sub) == KeyFor(notificationId, other)
    ensures sub.id == other.id
  {
    var prefix := "ssartnership:" + notificationId + ":push:";
    assert sub.id == KeyFor(notificationId, sub)[|prefix|..] && other.id == KeyFor(notificationId, other)[|prefix|..];
  }

  /** The attempts of a campaign: one for each target, under its key, and ended. */
  predicate CampaignAttempts(
    s: Protocol.State, ids: seq<Protocol.AttemptId>, notificationId: string, targets: seq<Subscription>)
  {
    |ids| == |targets| &&
    forall i :: 0 <= i < |ids| ==>
      ids[i] in s.attempts && s.attempts[ids[i]].key == KeyFor(notificationId, targets[i]) &&
      s.attempts[ids[i]].point.Finished?
  }

  function OutcomesOf(
    s: Protocol.State, ids: seq<Protocol.AttemptId>, notificationId: string, targets: seq<Subscription>)
    : seq<Protocol.Outcome>
    requires CampaignAttempts(s, ids, notificationId, targets)
  {
    seq(|ids|, i requires 0 <= i < |ids| => s.attempts[ids[i]].point.outcome)
  }

  predicate Reaches(s: Protocol.State, notificationId: string, sub: Subscription) {
    s.deliveries[KeyFor(notificationId, sub)] == 1
  }

  /** The keys of the targets that have been delivered to, exactly once. */
  function DeliveredKeys(s: Protocol.State, notificationId: string, targets: seq<Subscription>): set<Protocol.Key> {
    set sub | sub in targets && Reaches(s, notificationId, sub) :: KeyFor(notificationId, sub)
  }

  /** Different positions have different keys, so there are at least as many keys. */
  lemma {:induction false} AsManyKeys(
    positions: set<int>, notificationId: string, targets: seq<Subscription>, n: nat, keys: set<Protocol.Key>)
    requires DistinctTargets(targets) && n <= |targets|
    requires forall i :: i in positions ==> 0 <= i < n && KeyFor(notificationId, targets[i]) in keys
    ensures |positions| <= |keys|
  {
    if n == 0 {
      assert forall i :: i !in positions;
      assert positions == {};
    } else if n - 1 in positions {
      var key := KeyFor(notificationId, targets[n - 1]);
      forall i | i in positions - {n - 1} ensures KeyFor(notificationId, targets[i]) in keys - {key} {
        if KeyFor(notificationId, targets[i]) == key {
          KeyNamesSubscription(notificationId, targets[i], targets[n - 1]);
        }
      }
      hide KeyFor;
      AsManyKeys(positions - {n - 1}, notificationId, targets, n - 1, keys - {key});
    } else {
      AsManyKeys(positions, notificationId, targets, n - 1, keys);
    }
  }

  /** What the outcome of each attempt means for the delivery to its subscription. */
  lemma OutcomeMeansDelivery(
    events: seq<Protocol.Event>, ids: seq<Protocol.AttemptId>, notificationId: string, targets: seq<Subscription>,
    i: nat)
    requires i < |ids| && CampaignAttempts(Protocol.Run(Protocol.INITIAL, events), ids, notificationId, targets)
    ensures var s := Protocol.Run(Protocol.INITIAL, events);
      var outcome := OutcomesOf(s, ids, notificationId, targets)[i];
      && (outcome.SentOutcome? ==> Reaches(s, notificationId, targets[i]))
      && (!outcome.SentOutcome? && !outcome.Unreconciled? ==> !s.attempts[ids[i]].call.Resolved?)
  {
    hide Protocol.Run, KeyFor;
    Protocol.OutcomesAreTruthful(events, ids[i]);
  }

  /**
   Over any interleaving of the attempts of the delivery protocol: what a campaign counts as
   sent was delivered to its own subscription exactly once, and no subscription is counted twice, so the
   count never exceeds the number of keys delivered; what it counts as failed without a warning about
   reconciliation was not delivered by it.
   */
  lemma CountedMeansDelivered(
    ctx: Context, members: seq<Member>, notificationId: string, events: seq<Protocol.Event>,
    ids: seq<Protocol.AttemptId>)
    requires DistinctIds(members) && DistinctSubscriptions(ctx)
    requires var s := Protocol.Run(Protocol.INITIAL, events);
      CampaignAttempts(s, ids, notificationId, PushTargets(ctx, members))
    ensures var s := Protocol.Run(Protocol.INITIAL, events); var targets := PushTargets(ctx, members);
      var outcomes := OutcomesOf(s, ids, notificationId, targets);
      && |SentAttempts(outcomes)| <= |DeliveredKeys(s, notificationId, targets)|
      && (forall i :: 0 <= i < |ids| && outcomes[i].SentOutcome? ==> Reaches(s, notificationId, targets[i]))
      && (forall i :: 0 <= i < |ids| && !outcomes[i].SentOutcome? && !outcomes[i].Unreconciled? ==>
            !s.attempts[ids[i]].call.Resolved?)
  {
    hide Protocol.Run, KeyFor, PushTargets, DistinctIds, DistinctSubscriptions, Reaches, DistinctTargets;
    var s, targets := Protocol.Run(Protocol.INITIAL, events), PushTargets(ctx, members);
    var outcomes := OutcomesOf(s, ids, notificationId, targets);
    forall i | 0 <= i < |ids|
      ensures outcomes[i].SentOutcome? ==> Reaches(s, notificationId, targets[i])
      ensures !outcomes[i].SentOutcome? && !outcomes[i].Unreconciled? ==> !s.attempts[ids[i]].call.Resolved?
    {
      OutcomeMeansDelivery(events, ids, notificationId, targets, i);
    }
    TargetsAreDistinct(ctx, members);
    AsManyKeys(SentAttempts(outcomes), notificationId, targets, |ids|, DeliveredKeys(s, notificationId, targets));
  }

  /**
   Over any interleaving of the delivery protocol: a campaign reported as sent, with push selected, has
   delivered to every subscription it targeted, exactly once, under that subscription's own key.
   */
  lemma SentMeansDelivered(
    ctx: Context, members: seq<Member>, selected: seq<Channel>, sessions: int -> Session, notificationId: string,
    events: seq<Protocol.Event>, ids: seq<Protocol.AttemptId>)
    requires DistinctIds(members) && Push in selected
    requires var s := Protocol.Run(Protocol.INITIAL, events);
      CampaignAttempts(s, ids, notificationId, PushTargets(ctx, members))
    ensures var s := Protocol.Run(Protocol.INITIAL, events); var targets := PushTargets(ctx, members);
      var fate := Fate(OutcomesOf(s, ids, notificationId, targets), sessions);
      ComputeStatus(Expected(ctx, members, selected, fate)).AllSent? ==>
        forall sub :: sub in targets ==> s.deliveries[KeyFor(notificationId, sub)] == 1
  {
    hide ComputeStatus, Expected, PushTargets, DistinctIds, Protocol.Run, SomethingTargeted, Recipients, Delivered;
    hide KeyFor;
    var s, targets := Protocol.Run(Protocol.INITIAL, events), PushTargets(ctx, members);
    var outcomes := OutcomesOf(s, ids, notificationId, targets);
    SentMeansEverything(ctx, members, selected, Fate(outcomes, sessions));
    if ComputeStatus(Expected(ctx, members, selected, Fate(outcomes, sessions))).AllSent? {
      forall i | 0 <= i < |targets| ensures Reaches(s, notificationId, targets[i]) {
        OutcomeMeansDelivery(events, ids, notificationId, targets, i);
      }
    }
  }
}
