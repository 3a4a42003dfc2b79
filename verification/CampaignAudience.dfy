/**
 Who a campaign reaches and why the others are left out: the eligibility loop of
 `buildAudienceContext` in `src/lib/admin-notification-ops.ts`.
 */
module CampaignAudience {
  import opened Wrappers

  type MemberId = nat

  datatype Channel = InApp | Push | Mattermost

  datatype NotificationType = Announcement | Marketing | NewPartner | ExpiringPartner

  datatype Reason =
    | TypeDisabled | MarketingNotConsented | PushDisabled | NoPushSubscription | MmDisabled | ChannelUnavailable

  datatype Preference = Preference(
    enabled: bool, announcementEnabled: bool, newPartnerEnabled: bool, expiringPartnerEnabled: bool,
    mmEnabled: bool, marketingEnabled: bool)

  /** What counts for a member with no stored preferences. */
  const FALLBACK := Preference(true, true, true, true, true, false)

  datatype Member = Member(id: MemberId, mattermostUserId: Option<string>, senderGeneration: Option<int>)

  datatype Subscription = Subscription(id: string, memberId: MemberId)

  /** The rows read before the loop. */
  datatype Context = Context(
    notificationType: NotificationType, preferences: map<MemberId, Preference>, hasMarketingPolicy: bool,
    marketingConsents: set<MemberId>, subscriptions: map<MemberId, seq<Subscription>>)

  function PreferenceOf(ctx: Context, id: MemberId): Preference {
    if id in ctx.preferences then ctx.preferences[id] else FALLBACK
  }

  function SubscriptionsOf(ctx: Context, id: MemberId): seq<Subscription> {
    if id in ctx.subscriptions then ctx.subscriptions[id] else []
  }

  /** `getTypePreferenceEnabled`. */
  predicate TypeEnabled(t: NotificationType, p: Preference) {
    match t
    case Announcement => p.announcementEnabled
    case Marketing => p.marketingEnabled
    case NewPartner => p.newPartnerEnabled
    case ExpiringPartner => p.expiringPartnerEnabled
  }

  // ---- what a member's exclusion means -------------------------------------------------------

  /** Wants this kind of notification; for marketing, a consent to the current policy decides. */
  predicate Wants(ctx: Context, m: Member) {
    var stored := m.id in ctx.preferences;
    match ctx.notificationType
    case Announcement => stored ==> ctx.preferences[m.id].announcementEnabled
    case Marketing => ctx.hasMarketingPolicy && m.id in ctx.marketingConsents
    case NewPartner => stored ==> ctx.preferences[m.id].newPartnerEnabled
    case ExpiringPartner => stored ==> ctx.preferences[m.id].expiringPartnerEnabled
  }

  /** Can be reached on a channel, whatever the kind of notification. */
  predicate Reachable(ctx: Context, m: Member, channel: Channel) {
    match channel
    case InApp => true
    case Push => AllowsPush(ctx, m) && m.id in ctx.subscriptions && ctx.subscriptions[m.id] != []
    case Mattermost => AllowsMattermost(ctx, m) && m.mattermostUserId.Some? && m.mattermostUserId.value != ""
  }

  /** What is not stored is allowed. */
  predicate AllowsPush(ctx: Context, m: Member) { m.id in ctx.preferences ==> ctx.preferences[m.id].enabled }

  predicate AllowsMattermost(ctx: Context, m: Member) { m.id in ctx.preferences ==> ctx.preferences[m.id].mmEnabled }

  predicate HasAccount(m: Member) { m.mattermostUserId.Some? && m.mattermostUserId.value != "" }

  /** The one reason for which a channel leaves a member out. */
  function ReasonFor(ctx: Context, m: Member, channel: Channel): Option<Reason> {
    if !Wants(ctx, m) then Some(TypeDisabled)
    else
      match channel
      case InApp => None
      case Push =>
        if !PreferenceOf(ctx, m.id).enabled then Some(PushDisabled)
        else if SubscriptionsOf(ctx, m.id) == [] then Some(NoPushSubscription) else None
      case Mattermost =>
        if !PreferenceOf(ctx, m.id).mmEnabled then Some(MmDisabled)
        else if !HasAccount(m) then Some(ChannelUnavailable) else None
  }

  function EligibleIds(ctx: Context, members: seq<Member>, channel: Channel): seq<MemberId> {
    if members == [] then []
    else
      var last := members[|members| - 1];
      EligibleIds(ctx, members[..|members| - 1], channel) +
        if ReasonFor(ctx, last, channel).None? then [last.id] else []
  }

  function ReasonCount(ctx: Context, members: seq<Member>, channel: Channel, r: Reason): nat {
    if members == [] then 0
    else
      ReasonCount(ctx, members[..|members| - 1], channel, r) +
      if ReasonFor(ctx, members[|members| - 1], channel) == Some(r) then 1 else 0
  }

  function PushTargets(ctx: Context, members: seq<Member>): seq<Subscription> {
    if members == [] then []
    else
      var last := members[|members| - 1];
      PushTargets(ctx, members[..|members| - 1]) +
        if ReasonFor(ctx, last, Push).None? then SubscriptionsOf(ctx, last.id) else []
  }

  // ---- the loop --------------------------------------------------------------------------------

  type Counts = map<Reason, nat>

  function CountOf(counts: Counts, r: Reason): nat { if r in counts then counts[r] else 0 }

  /** The sum of all entries of a count map. */
  function Total(counts: Counts): nat {
    CountOf(counts, TypeDisabled) + CountOf(counts, MarketingNotConsented) + CountOf(counts, PushDisabled) +
    CountOf(counts, NoPushSubscription) + CountOf(counts, MmDisabled) + CountOf(counts, ChannelUnavailable)
  }

  datatype PerChannel<T> = PerChannel(inApp: T, push: T, mm: T) {
    function At(c: Channel): T {
      match c
      case InApp => inApp
      case Push => push
      case Mattermost => mm
    }

    function Set(c: Channel, value: T): (next: PerChannel<T>)
      ensures forall d :: next.At(d) == if d == c then value else At(d)
    {
      match c
      case InApp => this.(inApp := value)
      case Push => this.(push := value)
      case Mattermost => this.(mm := value)
    }
  }

  datatype Audience = Audience(
    eligible: PerChannel<seq<MemberId>>, reasons: PerChannel<Counts>, pushSubscriptions: seq<Subscription>)

  predicate DistinctChannels(selected: seq<Channel>) {
    forall i, j :: 0 <= i < j < |selected| ==> selected[i] != selected[j]
  }

  /** The reason counts after a prefix of the members, for the selected channels only. */
  ghost predicate Tallied(reasons: PerChannel<Counts>, ctx: Context, members: seq<Member>, selected: seq<Channel>) {
    forall c, r :: CountOf(reasons.At(c), r) == if c in selected then ReasonCount(ctx, members, c, r) else 0
  }

  /** The eligible members of each channel, in order. */
  ghost predicate Listed(eligible: PerChannel<seq<MemberId>>, ctx: Context, members: seq<Member>) {
    eligible.inApp == EligibleIds(ctx, members, InApp) && eligible.push == EligibleIds(ctx, members, Push) &&
    eligible.mm == EligibleIds(ctx, members, Mattermost)
  }

  /** The body of the member loop up to the counting: the reason each channel is left out for. */
  method Exclusions(ctx: Context, member: Member) returns (channelReasons: PerChannel<Option<Reason>>)
    ensures forall c :: channelReasons.At(c) == ReasonFor(ctx, member, c)
  {
    var preference := PreferenceOf(ctx, member.id);
    var hasCurrentMarketingConsent := ctx.hasMarketingPolicy && member.id in ctx.marketingConsents;
    var normalizedPreference := preference.(marketingEnabled := hasCurrentMarketingConsent);
    var typeEnabled := TypeEnabled(ctx.notificationType, normalizedPreference);
    var marketingAllowed := !ctx.notificationType.Marketing? || hasCurrentMarketingConsent;
    channelReasons := PerChannel(None, None, None);
    if !typeEnabled {
      channelReasons := PerChannel(Some(TypeDisabled), Some(TypeDisabled), Some(TypeDisabled));
    } else if !marketingAllowed {
      var notConsented := Some(MarketingNotConsented);
      channelReasons := PerChannel(notConsented, notConsented, notConsented);
    }
    if channelReasons.push.None? {
      if !preference.enabled {
        channelReasons := channelReasons.(push := Some(PushDisabled));
      } else if |SubscriptionsOf(ctx, member.id)| == 0 {
        channelReasons := channelReasons.(push := Some(NoPushSubscription));
      }
    }
    if channelReasons.mm.None? {
      if !preference.mmEnabled {
        channelReasons := channelReasons.(mm := Some(MmDisabled));
      } else if !HasAccount(member) {
        channelReasons := channelReasons.(mm := Some(ChannelUnavailable));
      }
    }
  }

  lemma OneMore(ctx: Context, members: seq<Member>, m: Member, c: Channel)
    ensures EligibleIds(ctx, members + [m], c) ==
      EligibleIds(ctx, members, c) + if ReasonFor(ctx, m, c).None? then [m.id] else []
    ensures PushTargets(ctx, members + [m]) ==
      PushTargets(ctx, members) + if ReasonFor(ctx, m, Push).None? then SubscriptionsOf(ctx, m.id) else []
  {
    assert (members + [m])[..|members|] == members;
  }

  /** One round of the loop. */
  method AddMember(ctx: Context, ghost before: seq<Member>, member: Member, selected: seq<Channel>, a: Audience)
    returns (next: Audience)
    requires DistinctChannels(selected)
    requires Listed(a.eligible, ctx, before) && Tallied(a.reasons, ctx, before, selected)
    requires a.pushSubscriptions == PushTargets(ctx, before)
    ensures Listed(next.eligible, ctx, before + [member]) && Tallied(next.reasons, ctx, before + [member], selected)
    ensures next.pushSubscriptions == PushTargets(ctx, before + [member])
  {
    hide ReasonFor, EligibleIds, PushTargets, Tallied, DistinctChannels, SubscriptionsOf;
    var channelReasons := Exclusions(ctx, member);
    var eligible, pushSubscriptions := a.eligible, a.pushSubscriptions;
    if channelReasons.At(InApp).None? {
      eligible := eligible.(inApp := eligible.inApp + [member.id]);
    }
    if channelReasons.At(Push).None? {
      eligible := eligible.(push := eligible.push + [member.id]);
      pushSubscriptions := pushSubscriptions + SubscriptionsOf(ctx, member.id);
    }
    if channelReasons.At(Mattermost).None? {
      eligible := eligible.(mm := eligible.mm + [member.id]);
    }
    OneMore(ctx, before, member, InApp);
    OneMore(ctx, before, member, Push);
    OneMore(ctx, before, member, Mattermost);
    var reasons := CountReasons(ctx, before, member, channelReasons, selected, a.reasons);
    next := Audience(eligible, reasons, pushSubscriptions);
  }

  /** The eligibility loop. */
  method BuildAudience(ctx: Context, members: seq<Member>, selected: seq<Channel>) returns (a: Audience)
    requires DistinctChannels(selected)
    ensures Listed(a.eligible, ctx, members) && Tallied(a.reasons, ctx, members, selected)
    ensures a.pushSubscriptions == PushTargets(ctx, members)
  {
    a := Audience(PerChannel([], [], []), PerChannel(map[], map[], map[]), []);
    for i := 0 to |members|
      invariant Listed(a.eligible, ctx, members[..i]) && Tallied(a.reasons, ctx, members[..i], selected)
      invariant a.pushSubscriptions == PushTargets(ctx, members[..i])
    {
      hide EligibleIds, PushTargets, Tallied, Listed;
      a := AddMember(ctx, members[..i], members[i], selected, a);
      assert members[..i + 1] == members[..i] + [members[i]];
    }
    assert members[..|members|] == members;
  }

  function Bumped(
    counted: PerChannel<Counts>, channelReasons: PerChannel<Option<Reason>>, done: seq<Channel>, c: Channel,
    r: Reason): nat
  {
    CountOf(counted.At(c), r) + if c in done && channelReasons.At(c) == Some(r) then 1 else 0
  }

  /** The inner loop over the selected channels. */
  method CountReasons(
    ctx: Context, ghost before: seq<Member>, member: Member, channelReasons: PerChannel<Option<Reason>>,
    selected: seq<Channel>, counted: PerChannel<Counts>)
    returns (reasons: PerChannel<Counts>)
    requires DistinctChannels(selected) && Tallied(counted, ctx, before, selected)
    requires forall c :: channelReasons.At(c) == ReasonFor(ctx, member, c)
    ensures Tallied(reasons, ctx, before + [member], selected)
  {
    reasons := counted;
    for j := 0 to |selected|
      invariant forall c, r :: CountOf(reasons.At(c), r) == Bumped(counted, channelReasons, selected[..j], c, r)
    {
      var channel := selected[j];
      assert channel !in selected[..j] && selected[..j + 1] == selected[..j] + [channel];
      var reason := channelReasons.At(channel);
      ghost var prior := reasons;
      if reason.Some? {
        var counts := reasons.At(channel);
        reasons := reasons.Set(channel, counts[reason.value := CountOf(counts, reason.value) + 1]);
      }
      forall c, r ensures CountOf(reasons.At(c), r) == Bumped(counted, channelReasons, selected[..j + 1], c, r) {
        assert c in selected[..j + 1] <==> c in selected[..j] || c == channel;
        assert CountOf(prior.At(c), r) == Bumped(counted, channelReasons, selected[..j], c, r);
      }
    }
    assert selected[..|selected|] == selected;
    assert (before + [member])[..|before|] == before;
  }

  // ---- conservation ----------------------------------------------------------------------------

  /** Every member is either eligible on a channel or counted under exactly one reason. */
  lemma {:induction false} AudienceConserved(
    ctx: Context, members: seq<Member>, selected: seq<Channel>, reasons: PerChannel<Counts>, c: Channel)
    requires c in selected && Tallied(reasons, ctx, members, selected)
    ensures |EligibleIds(ctx, members, c)| + Total(reasons.At(c)) == |members|
  {
    ReasonsPartition(ctx, members, c);
  }

  lemma {:induction false} ReasonsPartition(ctx: Context, members: seq<Member>, c: Channel)
    ensures |EligibleIds(ctx, members, c)| + ReasonCount(ctx, members, c, TypeDisabled) +
      ReasonCount(ctx, members, c, MarketingNotConsented) + ReasonCount(ctx, members, c, PushDisabled) +
      ReasonCount(ctx, members, c, NoPushSubscription) + ReasonCount(ctx, members, c, MmDisabled) +
      ReasonCount(ctx, members, c, ChannelUnavailable) == |members|
  {
    if members == [] {
    } else {
      ReasonsPartition(ctx, members[..|members| - 1], c);
    }
  }

  /** A member is eligible exactly when it wants the notification and the channel reaches it. */
  lemma EligibleMeansReachable(ctx: Context, m: Member, c: Channel)
    ensures ReasonFor(ctx, m, c).None? <==> Wants(ctx, m) && Reachable(ctx, m, c)
  {
  }

  /** Each reason says what stands in the way, and the first obstacle is the one that is named. */
  lemma ReasonMeans(ctx: Context, m: Member, c: Channel)
    ensures match ReasonFor(ctx, m, c)
      case None => Wants(ctx, m) && Reachable(ctx, m, c)
      case Some(TypeDisabled) => !Wants(ctx, m)
      case Some(PushDisabled) => Wants(ctx, m) && c.Push? && !AllowsPush(ctx, m)
      case Some(NoPushSubscription) => Wants(ctx, m) && c.Push? && AllowsPush(ctx, m) && !Reachable(ctx, m, Push)
      case Some(MmDisabled) => Wants(ctx, m) && c.Mattermost? && !AllowsMattermost(ctx, m)
      case Some(ChannelUnavailable) =>
        Wants(ctx, m) && c.Mattermost? && AllowsMattermost(ctx, m) && !Reachable(ctx, m, Mattermost)
      case Some(MarketingNotConsented) => false
  {
  }

  /**
   The reason "no marketing consent" is never given: a missing consent already switches the
   marketing type off, so such members are reported as having disabled the type.
   */
  lemma {:induction false} ConsentReasonNeverGiven(ctx: Context, members: seq<Member>, c: Channel)
    ensures ReasonCount(ctx, members, c, MarketingNotConsented) == 0
    ensures ctx.notificationType.Marketing? ==>
      forall m :: m in members && !(ctx.hasMarketingPolicy && m.id in ctx.marketingConsents) ==>
        ReasonFor(ctx, m, c) == Some(TypeDisabled)
  {
    if members == [] {
    } else {
      ConsentReasonNeverGiven(ctx, members[..|members| - 1], c);
    }
  }

  /** There is something to push to exactly when somebody is eligible for push. */
  lemma {:induction false} PushTargetsExactlyWhenEligible(ctx: Context, members: seq<Member>)
    ensures |PushTargets(ctx, members)| >= |EligibleIds(ctx, members, Push)|
    ensures PushTargets(ctx, members) == [] <==> EligibleIds(ctx, members, Push) == []
  {
    if members == [] {
    } else {
      PushTargetsExactlyWhenEligible(ctx, members[..|members| - 1]);
    }
  }

  // ---- recipients ------------------------------------------------------------------------------

  predicate DistinctIds(members: seq<Member>) {
    forall i, j :: 0 <= i < j < |members| ==> members[i].id != members[j].id
  }

  predicate HasSubscription(ctx: Context, id: MemberId, i: int, sub: Subscription) {
    0 <= i < |SubscriptionsOf(ctx, id)| && SubscriptionsOf(ctx, id)[i] == sub
  }

  /** The id is the primary key of the table, and each row is read once. */
  ghost predicate DistinctSubscriptions(ctx: Context) {
    forall m, n, i, j, sub, other :: HasSubscription(ctx, m, i, sub) && HasSubscription(ctx, n, j, other) ==>
      sub.id == other.id ==> m == n && i == j
  }

  predicate DistinctTargets(targets: seq<Subscription>) {
    forall i, j :: 0 <= i < j < |targets| ==> targets[i].id != targets[j].id
  }

  lemma {:induction false} TargetsComeFrom(ctx: Context, members: seq<Member>, sub: Subscription)
    requires sub in PushTargets(ctx, members)
    ensures exists k, i :: 0 <= k < |members| && HasSubscription(ctx, members[k].id, i, sub)
  {
    var last := members[|members| - 1];
    if sub in PushTargets(ctx, members[..|members| - 1]) {
      TargetsComeFrom(ctx, members[..|members| - 1], sub);
      var k, i :| 0 <= k < |members| - 1 && HasSubscription(ctx, members[k].id, i, sub);
    } else {
      var i :| 0 <= i < |SubscriptionsOf(ctx, last.id)| && SubscriptionsOf(ctx, last.id)[i] == sub;
      assert HasSubscription(ctx, members[|members| - 1].id, i, sub);
    }
  }

  /** No subscription is pushed to twice in one campaign. */
  lemma {:induction false} TargetsAreDistinct(ctx: Context, members: seq<Member>)
    requires DistinctIds(members) && DistinctSubscriptions(ctx)
    ensures DistinctTargets(PushTargets(ctx, members))
  {
    if members == [] {
    } else {
      var front, last := members[..|members| - 1], members[|members| - 1];
      TargetsAreDistinct(ctx, front);
      var before, own := PushTargets(ctx, front), SubscriptionsOf(ctx, last.id);
      forall i, j | 0 <= i < |before| && 0 <= j < |own| ensures before[i].id != own[j].id {
        TargetsComeFrom(ctx, front, before[i]);
        var k, n :| 0 <= k < |front| && HasSubscription(ctx, front[k].id, n, before[i]);
        assert HasSubscription(ctx, last.id, j, own[j]) && members[k].id != last.id;
      }
      forall i, j | 0 <= i < j < |own| ensures own[i].id != own[j].id {
        assert HasSubscription(ctx, last.id, i, own[i]) && HasSubscription(ctx, last.id, j, own[j]);
      }
      hide PushTargets, SubscriptionsOf;
      assert DistinctTargets(before + own);
    }
  }

  /** The members Mattermost messages go to: those whose id is among the eligible ones. */
  function MattermostMembers(members: seq<Member>, eligible: seq<MemberId>): seq<Member> {
    if members == [] then []
    else
      var last := members[|members| - 1];
      MattermostMembers(members[..|members| - 1], eligible) +
        if last.id in eligible && HasAccount(last) then [last] else []
  }

  lemma {:induction false} EligibleIdsAre(ctx: Context, members: seq<Member>, c: Channel, m: Member)
    requires DistinctIds(members) && m in members
    ensures m.id in EligibleIds(ctx, members, c) <==> ReasonFor(ctx, m, c).None?
  {
    var front, last := members[..|members| - 1], members[|members| - 1];
    EligibleComeFrom(ctx, front, c);
    if m in front {
      EligibleIdsAre(ctx, front, c, m);
      assert m.id != last.id;
    } else {
      assert m == last;
      assert forall i :: 0 <= i < |front| ==> front[i].id != last.id;
    }
  }

  lemma {:induction false} EligibleComeFrom(ctx: Context, members: seq<Member>, c: Channel)
    ensures forall id :: id in EligibleIds(ctx, members, c) ==> exists i :: 0 <= i < |members| && members[i].id == id
  {
    if members == [] {
    } else {
      var front := members[..|members| - 1];
      EligibleComeFrom(ctx, front, c);
      forall id | id in EligibleIds(ctx, members, c) ensures exists i :: 0 <= i < |members| && members[i].id == id {
        if id in EligibleIds(ctx, front, c) {
          var i :| 0 <= i < |front| && front[i].id == id;
          assert members[i].id == id;
        } else {
          assert members[|members| - 1].id == id;
        }
      }
    }
  }

  /** The lookup by id finds each eligible member once, so as many are targeted as are eligible. */
  lemma MattermostTargets(ctx: Context, members: seq<Member>)
    requires DistinctIds(members)
    ensures |MattermostMembers(members, EligibleIds(ctx, members, Mattermost))| ==
      |EligibleIds(ctx, members, Mattermost)|
  {
    forall m | m in members
      ensures m.id in EligibleIds(ctx, members, Mattermost) <==> ReasonFor(ctx, m, Mattermost).None?
    {
      EligibleIdsAre(ctx, members, Mattermost, m);
    }
    SelectedCount(ctx, members, EligibleIds(ctx, members, Mattermost));
  }

  lemma {:induction false} SelectedCount(ctx: Context, members: seq<Member>, eligible: seq<MemberId>)
    requires forall m :: m in members ==> (m.id in eligible <==> ReasonFor(ctx, m, Mattermost).None?)
    ensures |MattermostMembers(members, eligible)| == |EligibleIds(ctx, members, Mattermost)|
  {
    if members == [] {
    } else {
      SelectedCount(ctx, members[..|members| - 1], eligible);
      assert members[|members| - 1] in members;
    }
  }
}
