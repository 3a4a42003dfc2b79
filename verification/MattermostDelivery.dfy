/**
 Mattermost deliveries of a campaign: grouping by sender generation, one session per group,
 messages through the worker pool (`src/lib/admin-notification-ops-delivery.ts`).
 */
module MattermostDelivery {
  import opened Wrappers
  import opened CampaignAudience
  import opened CampaignDelivery
  import JsNumber
  import WorkerPool

  /**
   What opening the sender session of a generation leads to: it fails before any message is
   sent, or every member's message goes through or does not.
   */
  datatype Session = Unavailable | Opened(delivers: MemberId -> bool)

  datatype Delivery = Delivery(member: MemberId, sent: bool)

  predicate Delivered(sessions: int -> Session, m: Member) {
    m.senderGeneration.Some? &&
    var session := sessions(m.senderGeneration.value);
    session.Opened? && session.delivers(m.id)
  }

  function Group(members: seq<Member>, generation: Option<int>): seq<Member> {
    if members == [] then []
    else
      var last := members[|members| - 1];
      Group(members[..|members| - 1], generation) + if last.senderGeneration == generation then [last] else []
  }

  /** How many members of the given generations there are, and how many of them are reached. */
  function CountIn(members: seq<Member>, done: set<Option<int>>): nat {
    if members == [] then 0
    else CountIn(members[..|members| - 1], done) + if members[|members| - 1].senderGeneration in done then 1 else 0
  }

  function SentIn(members: seq<Member>, sessions: int -> Session, done: set<Option<int>>): nat {
    if members == [] then 0
    else
      var last := members[|members| - 1];
      SentIn(members[..|members| - 1], sessions, done) +
        if last.senderGeneration in done && Delivered(sessions, last) then 1 else 0
  }

  /** The ledger records written for the given generations: one per member. */
  function RecordsIn(members: seq<Member>, sessions: int -> Session, done: set<Option<int>>): multiset<Delivery> {
    if members == [] then multiset{}
    else
      var last := members[|members| - 1];
      RecordsIn(members[..|members| - 1], sessions, done) +
      if last.senderGeneration in done then multiset{Delivery(last.id, Delivered(sessions, last))} else multiset{}
  }

  lemma {:induction false} CountGroup(members: seq<Member>, done: set<Option<int>>, g: Option<int>)
    requires g !in done
    ensures CountIn(members, done + {g}) == CountIn(members, done) + |Group(members, g)|
  {
    if members == [] {
    } else {
      CountGroup(members[..|members| - 1], done, g);
    }
  }

  lemma GroupCons(members: seq<Member>, g: Option<int>)
    requires members != []
    ensures var front, last := members[..|members| - 1], members[|members| - 1];
      Group(members, g) == Group(front, g) + if last.senderGeneration == g then [last] else []
    ensures members[|members| - 1].senderGeneration == g ==>
      Group(members, g)[..|Group(members, g)| - 1] == Group(members[..|members| - 1], g)
  {
  }

  lemma {:induction false} SentGroup(
    members: seq<Member>, sessions: int -> Session, done: set<Option<int>>, g: Option<int>)
    requires g !in done
    ensures SentIn(members, sessions, done + {g}) ==
      SentIn(members, sessions, done) + SentIn(Group(members, g), sessions, {g})
  {
    hide Delivered;
    if members == [] {
    } else {
      SentGroup(members[..|members| - 1], sessions, done, g);
      GroupCons(members, g);
      hide Group;
      assert Group(members, g) == Group(members[..|members| - 1], g) || members[|members| - 1].senderGeneration == g;
    }
  }

  lemma {:induction false} RecordsGroup(
    members: seq<Member>, sessions: int -> Session, done: set<Option<int>>, g: Option<int>)
    requires g !in done
    ensures RecordsIn(members, sessions, done + {g}) ==
      RecordsIn(members, sessions, done) + RecordsIn(Group(members, g), sessions, {g})
  {
    hide Delivered;
    if members == [] {
    } else {
      var front, last := members[..|members| - 1], members[|members| - 1];
      RecordsGroup(front, sessions, done, g);
      GroupCons(members, g);
      RecordsCons(members, sessions, done);
      RecordsCons(members, sessions, done + {g});
      if last.senderGeneration == g {
        RecordsCons(Group(members, g), sessions, {g});
        hide Group, RecordsIn;
        assert last.senderGeneration !in done;
      } else {
        hide Group, RecordsIn;
        assert Group(members, g) == Group(front, g);
      }
    }
  }

  lemma RecordsCons(members: seq<Member>, sessions: int -> Session, done: set<Option<int>>)
    requires members != []
    ensures var front, last := members[..|members| - 1], members[|members| - 1];
      RecordsIn(members, sessions, done) == RecordsIn(front, sessions, done) +
        if last.senderGeneration in done then multiset{Delivery(last.id, Delivered(sessions, last))} else multiset{}
  {
  }

  lemma {:induction false} NoneDone(members: seq<Member>, sessions: int -> Session)
    ensures Counts(Tally(0, 0, multiset{}), members, sessions, {})
  {
    if members == [] {
    } else {
      NoneDone(members[..|members| - 1], sessions);
    }
  }

  predicate AllIn(members: seq<Member>, done: set<Option<int>>) {
    forall i :: 0 <= i < |members| ==> members[i].senderGeneration in done
  }

  lemma {:induction false} AllDone(members: seq<Member>, done: set<Option<int>>)
    requires AllIn(members, done)
    ensures CountIn(members, done) == |members|
  {
    if members == [] {
    } else {
      AllDone(members[..|members| - 1], done);
    }
  }

  function GroupAt(grouped: map<int, seq<Member>>, g: int): seq<Member> { if g in grouped then grouped[g] else [] }

  predicate DistinctKeys(order: seq<int>) { forall i, j :: 0 <= i < j < |order| ==> order[i] != order[j] }

  predicate Covers(grouped: map<int, seq<Member>>, members: seq<Member>) {
    forall i :: 0 <= i < |members| && members[i].senderGeneration.Some? ==> members[i].senderGeneration.value in grouped
  }

  /** The groups built so far: a map in insertion order, and the members without a sender. */
  ghost predicate Grouped(
    grouped: map<int, seq<Member>>, order: seq<int>, withoutSender: seq<Member>, members: seq<Member>)
  {
    && withoutSender == Group(members, None)
    && DistinctKeys(order) && Covers(grouped, members)
    && (forall g :: g in grouped <==> g in order)
    && (forall g :: GroupAt(grouped, g) == Group(members, Some(g)))
  }

  lemma GroupAppend(members: seq<Member>, m: Member, g: Option<int>)
    ensures Group(members + [m], g) == Group(members, g) + if m.senderGeneration == g then [m] else []
  {
    assert (members + [m])[..|members|] == members;
  }

  lemma AddWithout(
    grouped: map<int, seq<Member>>, order: seq<int>, withoutSender: seq<Member>, members: seq<Member>, m: Member)
    requires Grouped(grouped, order, withoutSender, members) && m.senderGeneration.None?
    ensures Grouped(grouped, order, withoutSender + [m], members + [m])
  {
    hide Group;
    GroupAppend(members, m, None);
    forall g ensures GroupAt(grouped, g) == Group(members + [m], Some(g)) { GroupAppend(members, m, Some(g)); }
  }

  lemma AddToGroup(
    grouped: map<int, seq<Member>>, order: seq<int>, withoutSender: seq<Member>, members: seq<Member>, m: Member,
    g: int)
    requires Grouped(grouped, order, withoutSender, members) && m.senderGeneration == Some(g)
    ensures var next := grouped[g := GroupAt(grouped, g) + [m]];
      Grouped(next, if g in grouped then order else order + [g], withoutSender, members + [m])
  {
    hide Group;
    GroupAppend(members, m, None);
    var next := grouped[g := GroupAt(grouped, g) + [m]];
    forall h ensures GroupAt(next, h) == Group(members + [m], Some(h)) { GroupAppend(members, m, Some(h)); }
  }

  /** The grouping loop. */
  method GroupMembers(members: seq<Member>)
    returns (grouped: map<int, seq<Member>>, order: seq<int>, withoutSender: seq<Member>)
    ensures Grouped(grouped, order, withoutSender, members)
  {
    grouped, order, withoutSender := map[], [], [];
    for i := 0 to |members|
      invariant Grouped(grouped, order, withoutSender, members[..i])
    {
      hide Grouped;
      var member := members[i];
      assert members[..i + 1] == members[..i] + [member];
      match member.senderGeneration {
        case None =>
          AddWithout(grouped, order, withoutSender, members[..i], member);
          withoutSender := withoutSender + [member];
        case Some(g) =>
          AddToGroup(grouped, order, withoutSender, members[..i], member, g);
          var group := GroupAt(grouped, g);
          if g !in grouped {
            order := order + [g];
          }
          grouped := grouped[g := group + [member]];
      }
    }
    assert members[..|members|] == members;
  }

  /** What one callback leaves behind: the record it writes and the outcome it stores at its index. */
  datatype Posted = Posted(record: Delivery, sent: bool)

  /** The callback for one member: the message goes through, or the `catch` branch runs. */
  function Post(m: Member, delivers: MemberId -> bool): Posted {
    if delivers(m.id) then Posted(Delivery(m.id, true), true) else Posted(Delivery(m.id, false), false)
  }

  /** `outcomes.filter((status) => status === ...).length`. */
  function CountOutcomes(posted: seq<Option<Posted>>, wanted: bool): nat {
    if posted == [] then 0
    else
      var last := posted[|posted| - 1];
      CountOutcomes(posted[..|posted| - 1], wanted) + if last.Some? && last.value.sent == wanted then 1 else 0
  }

  /** The records the callbacks have written. */
  function Written(posted: seq<Option<Posted>>): multiset<Delivery> {
    if posted == [] then multiset{}
    else
      var last := posted[|posted| - 1];
      Written(posted[..|posted| - 1]) + if last.Some? then multiset{last.value.record} else multiset{}
  }

  /** Callbacks that tell the truth about their members count and record what happened to the group. */
  lemma {:induction false} PostedForGroup(
    members: seq<Member>, g: Option<int>, sessions: int -> Session, posted: seq<Option<Posted>>)
    requires |posted| == |members|
    requires forall i :: 0 <= i < |members| ==> members[i].senderGeneration == g && posted[i].Some?
    requires forall i :: 0 <= i < |members| ==> posted[i].value.sent == Delivered(sessions, members[i])
    requires forall i :: 0 <= i < |members| ==>
      posted[i].value.record == Delivery(members[i].id, Delivered(sessions, members[i]))
    ensures CountOutcomes(posted, true) == SentIn(members, sessions, {g})
    ensures CountOutcomes(posted, true) + CountOutcomes(posted, false) == |members|
    ensures Written(posted) == RecordsIn(members, sessions, {g})
  {
    hide Delivered;
    if members == [] {
    } else {
      var last := |members| - 1;
      PostedForGroup(members[..last], g, sessions, posted[..last]);
    }
  }

  lemma {:induction false} GroupIsUniform(members: seq<Member>, g: Option<int>)
    ensures forall i :: 0 <= i < |Group(members, g)| ==> Group(members, g)[i].senderGeneration == g
  {
    if members == [] {
    } else {
      GroupIsUniform(members[..|members| - 1], g);
    }
  }

  lemma {:induction false} NothingSent(members: seq<Member>, sessions: int -> Session, g: Option<int>)
    requires forall i :: 0 <= i < |members| ==> members[i].senderGeneration == g
    requires g.None? || sessions(g.value).Unavailable?
    ensures SentIn(members, sessions, {g}) == 0
  {
    if members == [] {
    } else {
      NothingSent(members[..|members| - 1], sessions, g);
    }
  }

  /** `markGroupMattermostFailure`: a failed record for every member. */
  method MarkGroupFailure(group: seq<Member>, ghost g: Option<int>, ghost sessions: int -> Session)
    returns (records: multiset<Delivery>)
    requires forall i :: 0 <= i < |group| ==> group[i].senderGeneration == g
    requires g.None? || sessions(g.value).Unavailable?
    ensures records == RecordsIn(group, sessions, {g})
  {
    var fulfilled, posted, _, _, _ := WorkerPool.MapWithConcurrency(
      group, JsNumber.Finite(4.0), (m: Member, i: nat) => WorkerPool.Resolved(Posted(Delivery(m.id, false), false)));
    PostedForGroup(group, g, sessions, posted);
    records := Written(posted);
  }

  /**
   One generation's group: a session, then its messages through the worker pool. The counts come from
   the stored outcomes, the records from what each callback wrote.
   */
  method SendGroup(group: seq<Member>, g: int, sessions: int -> Session)
    returns (sent: nat, failed: nat, records: multiset<Delivery>)
    requires forall i :: 0 <= i < |group| ==> group[i].senderGeneration == Some(g)
    ensures sent == SentIn(group, sessions, {Some(g)}) && sent + failed == |group|
    ensures records == RecordsIn(group, sessions, {Some(g)})
  {
    match sessions(g) {
      case Unavailable =>
        NothingSent(group, sessions, Some(g));
        sent, failed := 0, |group|;
        records := MarkGroupFailure(group, Some(g), sessions);
      case Opened(delivers) =>
        var fulfilled, posted, _, _, _ := WorkerPool.MapWithConcurrency(
          group, JsNumber.Finite(4.0), (m: Member, i: nat) => WorkerPool.Resolved(Post(m, delivers)));
        PostedForGroup(group, Some(g), sessions, posted);
        sent, failed := CountOutcomes(posted, true), CountOutcomes(posted, false);
        records := Written(posted);
    }
  }

  datatype Tally = Tally(sent: nat, failed: nat, records: multiset<Delivery>)

  ghost predicate Counts(t: Tally, members: seq<Member>, sessions: int -> Session, done: set<Option<int>>) {
    && t.sent == SentIn(members, sessions, done) && t.sent + t.failed == CountIn(members, done)
    && t.records == RecordsIn(members, sessions, done)
  }

  /** A group's own counts and records are what the group adds. */
  lemma AddTally(
    t: Tally, group: Tally, members: seq<Member>, sessions: int -> Session, done: set<Option<int>>, g: Option<int>)
    requires Counts(t, members, sessions, done) && g !in done
    requires group.sent == SentIn(Group(members, g), sessions, {g}) && group.sent + group.failed == |Group(members, g)|
    requires group.records == RecordsIn(Group(members, g), sessions, {g})
    ensures var total := Tally(t.sent + group.sent, t.failed + group.failed, t.records + group.records);
      Counts(total, members, sessions, done + {g})
  {
    hide SentIn, CountIn, RecordsIn, Group;
    CountGroup(members, done, g);
    SentGroup(members, sessions, done, g);
    RecordsGroup(members, sessions, done, g);
  }

  /** `sendMattermostCampaignDeliveriesDirect`. */
  method SendMattermostDeliveries(members: seq<Member>, sessions: int -> Session)
    returns (r: ChannelResult, records: multiset<Delivery>)
    ensures Balanced(r) && r.targeted == |members| && r.skipped == 0
    ensures r.sent == Reached(members, sessions) && records == AllRecords(members, sessions)
  {
    hide SentIn, CountIn, RecordsIn, Group, Counts, Reached, AllRecords;
    var grouped, order, withoutSender := GroupMembers(members);
    ghost var done: set<Option<int>> := {None};
    GroupIsUniform(members, None);
    NothingSent(withoutSender, sessions, None);
    NoneDone(members, sessions);
    records := MarkGroupFailure(withoutSender, None, sessions);
    AddTally(Tally(0, 0, multiset{}), Tally(0, |withoutSender|, records), members, sessions, {}, None);
    var sent: nat, failed: nat := 0, |withoutSender|;
    assert {} + {None} == done && multiset{} + records == records;
    for k := 0 to |order|
      invariant None in done && forall g :: Some(g) in done <==> g in order[..k]
      invariant Counts(Tally(sent, failed, records), members, sessions, done)
    {
      var g := order[k];
      var group := grouped[g];
      assert g !in order[..k] && order[..k + 1] == order[..k] + [g];
      assert group == GroupAt(grouped, g) == Group(members, Some(g));
      GroupIsUniform(members, Some(g));
      var groupSent, groupFailed, groupRecords := SendGroup(group, g, sessions);
      var tally := Tally(sent, failed, records);
      AddTally(tally, Tally(groupSent, groupFailed, groupRecords), members, sessions, done, Some(g));
      sent, failed, records := sent + groupSent, failed + groupFailed, records + groupRecords;
      done := done + {Some(g)};
    }
    assert order[..|order|] == order;
    GroupsCoverAll(grouped, order, withoutSender, members, done);
    Complete(Tally(sent, failed, records), members, sessions, done);
    r := ChannelResult(|members|, sent, failed, 0);
  }

  lemma GroupsCoverAll(
    grouped: map<int, seq<Member>>, order: seq<int>, withoutSender: seq<Member>, members: seq<Member>,
    done: set<Option<int>>)
    requires Grouped(grouped, order, withoutSender, members)
    requires None in done && forall g :: g in order ==> Some(g) in done
    ensures AllIn(members, done)
  {
    hide Group;
    forall i | 0 <= i < |members| ensures members[i].senderGeneration in done {
      var generation := members[i].senderGeneration;
      match generation {
        case None =>
        case Some(g) =>
          assert Covers(grouped, members);
          assert g in grouped;
          assert g in order;
      }
    }
  }

  lemma Complete(t: Tally, members: seq<Member>, sessions: int -> Session, done: set<Option<int>>)
    requires Counts(t, members, sessions, done) && AllIn(members, done)
    ensures t.sent + t.failed == |members| && t.sent == Reached(members, sessions) &&
      t.records == AllRecords(members, sessions)
  {
    AllDone(members, done);
    Everybody(members, sessions, done);
  }

  /** The members a message reaches. */
  function Reached(members: seq<Member>, sessions: int -> Session): nat {
    if members == [] then 0
    else Reached(members[..|members| - 1], sessions) + if Delivered(sessions, members[|members| - 1]) then 1 else 0
  }

  /** One record for every member, saying whether the message reached it. */
  function AllRecords(members: seq<Member>, sessions: int -> Session): multiset<Delivery> {
    if members == [] then multiset{}
    else
      var last := members[|members| - 1];
      AllRecords(members[..|members| - 1], sessions) + multiset{Delivery(last.id, Delivered(sessions, last))}
  }

  lemma {:induction false} Everybody(members: seq<Member>, sessions: int -> Session, done: set<Option<int>>)
    requires AllIn(members, done)
    ensures SentIn(members, sessions, done) == Reached(members, sessions)
    ensures RecordsIn(members, sessions, done) == AllRecords(members, sessions)
  {
    if members == [] {
    } else {
      Everybody(members[..|members| - 1], sessions, done);
    }
  }

  lemma {:induction false} AllReached(members: seq<Member>, sessions: int -> Session)
    ensures Reached(members, sessions) <= |members|
    ensures Reached(members, sessions) == |members| <==>
      forall i :: 0 <= i < |members| ==> Delivered(sessions, members[i])
  {
    if members == [] {
    } else {
      AllReached(members[..|members| - 1], sessions);
    }
  }
}
