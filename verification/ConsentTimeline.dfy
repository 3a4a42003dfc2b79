/**
 A member's policy consents as the administrator sees them: `buildActivityEvents`,
 `getPolicyStatus` and `buildAdminMemberPolicyOverview` of `src/lib/admin-member-detail.ts`.
 A time stamp is its text; `time` is what the host's date parser makes of it.
 */
module ConsentTimeline {
  import opened Wrappers
  import StableSort

  datatype Kind = Service | Privacy | Marketing

  datatype Event = Event(kind: Kind, agreed: bool, at: string, version: Option<int>)

  datatype HistoryRow = HistoryRow(kind: Kind, version: int, agreedAt: string)

  /** The parts of an activity row that matter; a property that is no finite number counts as absent. */
  datatype ActivityRow = ActivityRow(
    createdAt: string, serviceVersion: Option<int>, privacyVersion: Option<int>, marketingVersion: Option<int>,
    marketingChecked: Option<bool>)

  function HistoryEvents(rows: seq<HistoryRow>): seq<Event> {
    seq(|rows|, i requires 0 <= i < |rows| => Event(rows[i].kind, true, rows[i].agreedAt, Some(rows[i].version)))
  }

  /** What one activity row says about a policy, if anything. */
  function Said(row: ActivityRow, kind: Kind): Option<Event> {
    match kind
    case Service =>
      if row.serviceVersion.Some? then Some(Event(Service, true, row.createdAt, row.serviceVersion)) else None
    case Privacy =>
      if row.privacyVersion.Some? then Some(Event(Privacy, true, row.createdAt, row.privacyVersion)) else None
    case Marketing =>
      if row.marketingChecked.Some? || row.marketingVersion.Some? then
        Some(Event(Marketing, row.marketingChecked == Some(true), row.createdAt, row.marketingVersion))
      else None
  }

  /**
   What a row states: an agreement to each of the two documents whose version it carries, and a decision about
   marketing if it carries a version or a tick, which is an agreement only when it is ticked.
   */
  lemma StatementsMean(row: ActivityRow, e: Event)
    ensures Said(row, e.kind) == Some(e) <==>
      && e.at == row.createdAt
      && (e.kind.Service? ==> e.agreed && e.version.Some? && e.version == row.serviceVersion)
      && (e.kind.Privacy? ==> e.agreed && e.version.Some? && e.version == row.privacyVersion)
      && (e.kind.Marketing? ==>
            e.version == row.marketingVersion && (e.version.Some? || row.marketingChecked != None) &&
            (e.agreed <==> row.marketingChecked == Some(true)))
  {
  }

  function Listed(e: Option<Event>): seq<Event> { if e.Some? then [e.value] else [] }

  function RowEvents(row: ActivityRow): seq<Event> {
    Listed(Said(row, Service)) + Listed(Said(row, Privacy)) + Listed(Said(row, Marketing))
  }

  function ActivityEvents(rows: seq<ActivityRow>): seq<Event> {
    if rows == [] then [] else ActivityEvents(rows[..|rows| - 1]) + RowEvents(rows[|rows| - 1])
  }

  const KINDS := [Service, Privacy, Marketing]

  /** The positions of all statements: three for each row, in the order service, privacy, marketing. */
  function StatementAt(rows: seq<ActivityRow>, p: nat): Option<Event>
    requires p < 3 * |rows|
  {
    Said(rows[p / 3], KINDS[p % 3])
  }

  /**
   The events are exactly the statements made before position `end`, each once and in order:
   `places[k]` is where the `k`-th event is stated.
   */
  ghost predicate StatedBefore(events: seq<Event>, rows: seq<ActivityRow>, places: seq<nat>, end: nat) {
    && |places| == |events| && end <= 3 * |rows|
    && (forall k :: 0 <= k < |places| ==> places[k] < end && StatementAt(rows, places[k]) == Some(events[k]))
    && (forall j, k :: 0 <= j < k < |places| ==> places[j] < places[k])
    && (forall p: nat :: p < end && StatementAt(rows, p).Some? ==> p in places)
  }

  ghost predicate StatedAt(events: seq<Event>, rows: seq<ActivityRow>, places: seq<nat>) {
    StatedBefore(events, rows, places, 3 * |rows|)
  }

  lemma NextStatement(events: seq<Event>, rows: seq<ActivityRow>, places: seq<nat>, end: nat) returns (more: seq<nat>)
    requires StatedBefore(events, rows, places, end) && end < 3 * |rows|
    ensures StatedBefore(events + Listed(StatementAt(rows, end)), rows, more, end + 1)
  {
    hide StatementAt;
    more := if StatementAt(rows, end).Some? then places + [end] else places;
    assert forall p :: p in places ==> p in more;
  }

  lemma SameStatements(events: seq<Event>, rows: seq<ActivityRow>, row: ActivityRow, places: seq<nat>)
    requires StatedAt(events, rows, places)
    ensures StatedBefore(events, rows + [row], places, 3 * |rows|)
  {
    hide Said;
    forall p: nat | p < 3 * |rows| ensures StatementAt(rows + [row], p) == StatementAt(rows, p) {
      assert (rows + [row])[p / 3] == rows[p / 3];
    }
    hide StatementAt;
  }

  lemma StatementsOfLast(rows: seq<ActivityRow>, row: ActivityRow)
    ensures var all := rows + [row]; var n := 3 * |rows|;
      && StatementAt(all, n) == Said(row, Service)
      && StatementAt(all, n + 1) == Said(row, Privacy)
      && StatementAt(all, n + 2) == Said(row, Marketing)
  {
  }

  /** One more row adds its statements at the end. */
  lemma StatedOneMore(events: seq<Event>, rows: seq<ActivityRow>, row: ActivityRow, places: seq<nat>)
    returns (more: seq<nat>)
    requires StatedAt(events, rows, places)
    ensures StatedAt(events + RowEvents(row), rows + [row], more)
  {
    hide StatementAt, StatedBefore, Said, Listed;
    var all, n := rows + [row], 3 * |rows|;
    SameStatements(events, rows, row, places);
    StatementsOfLast(rows, row);
    var one := events + Listed(Said(row, Service));
    more := NextStatement(events, all, places, n);
    more := NextStatement(one, all, more, n + 1);
    more := NextStatement(one + Listed(Said(row, Privacy)), all, more, n + 2);
    assert events + RowEvents(row) == one + Listed(Said(row, Privacy)) + Listed(Said(row, Marketing));
  }

  lemma {:induction false} ActivityEventsAreStatements(rows: seq<ActivityRow>) returns (places: seq<nat>)
    ensures StatedAt(ActivityEvents(rows), rows, places)
  {
    hide RowEvents;
    if rows == [] {
      places := [];
    } else {
      var front, last := rows[..|rows| - 1], rows[|rows| - 1];
      var before := ActivityEventsAreStatements(front);
      places := StatedOneMore(ActivityEvents(front), front, last, before);
      assert rows == front + [last];
    }
  }

  /**
   `buildActivityEvents`: events are pushed row by row. They are exactly what the rows state, each
   statement once and in order; a row's agreement to the terms or to privacy is never a refusal.
   */
  method BuildActivityEvents(rows: seq<ActivityRow>) returns (events: seq<Event>)
    ensures events == ActivityEvents(rows)
    ensures exists places :: StatedAt(events, rows, places)
    ensures forall e :: e in events <==> exists row :: row in rows && Said(row, e.kind) == Some(e)
    ensures forall e :: e in events && !e.agreed ==> e.kind.Marketing?
  {
    events := [];
    for i := 0 to |rows|
      invariant events == ActivityEvents(rows[..i])
    {
      hide RowEvents;
      assert rows[..i + 1][..i] == rows[..i];
      events := PushRow(events, rows[i]);
    }
    assert rows[..|rows|] == rows;
    ghost var places := ActivityEventsAreStatements(rows);
    hide ActivityEvents, Said;
    forall e | e in events ensures exists row :: row in rows && Said(row, e.kind) == Some(e) {
      ActivityIsStated(rows, e);
    }
    forall e | e in events ensures !e.agreed ==> e.kind.Marketing? { ActivityIsStated(rows, e); }
    forall row, e: Event | row in rows && Said(row, e.kind) == Some(e) ensures e in events {
      StatedIsActivity(rows, row, e);
    }
  }

  lemma SaidKind(row: ActivityRow, kind: Kind)
    ensures var e := Said(row, kind); e.Some? ==> e.value.kind == kind && (!e.value.agreed ==> kind.Marketing?)
  {
  }

  /** Every event among the activity events is stated by some row. */
  lemma ActivityIsStated(rows: seq<ActivityRow>, e: Event)
    requires e in ActivityEvents(rows)
    ensures exists row :: row in rows && Said(row, e.kind) == Some(e)
    ensures !e.agreed ==> e.kind.Marketing?
  {
    hide ActivityEvents, Said;
    var places := ActivityEventsAreStatements(rows);
    var k :| 0 <= k < |ActivityEvents(rows)| && ActivityEvents(rows)[k] == e;
    var row, kind := rows[places[k] / 3], KINDS[places[k] % 3];
    assert StatementAt(rows, places[k]) == Said(row, kind) == Some(e);
    SaidKind(row, kind);
  }

  lemma StatedIsActivity(rows: seq<ActivityRow>, row: ActivityRow, e: Event)
    requires row in rows && Said(row, e.kind) == Some(e)
    ensures e in ActivityEvents(rows)
  {
    hide ActivityEvents, Said;
    var places := ActivityEventsAreStatements(rows);
    var i: nat :| i < |rows| && rows[i] == row;
    var p := 3 * i + if e.kind.Service? then 0 else if e.kind.Privacy? then 1 else 2;
    assert StatementAt(rows, p) == Said(row, e.kind);
    assert p in places;
  }

  method PushRow(events: seq<Event>, row: ActivityRow) returns (next: seq<Event>)
    ensures next == events + RowEvents(row)
  {
    var pushed: seq<Event> := [];
    if row.serviceVersion.Some? {
      pushed := pushed + [Event(Service, true, row.createdAt, row.serviceVersion)];
    }
    assert pushed == Listed(Said(row, Service));
    if row.privacyVersion.Some? {
      pushed := pushed + [Event(Privacy, true, row.createdAt, row.privacyVersion)];
    }
    if row.marketingChecked.Some? || row.marketingVersion.Some? {
      pushed := pushed + [Event(Marketing, row.marketingChecked == Some(true), row.createdAt, row.marketingVersion)];
    }
    next := events + pushed;
  }

  // ---- the timeline ------------------------------------------------------------------------------

  /** The first of equal events stays; two events are equal when kind, agreement, version and time stamp are. */
  function Unrepeated(events: seq<Event>): seq<Event> {
    if events == [] then []
    else
      var front, last := Unrepeated(events[..|events| - 1]), events[|events| - 1];
      if last in front then front else front + [last]
  }

  /** The filter with its `seen` set. */
  method FilterRepeated(events: seq<Event>) returns (kept: seq<Event>)
    ensures kept == Unrepeated(events)
  {
    kept := [];
    var seen: set<Event> := {};
    for i := 0 to |events|
      invariant kept == Unrepeated(events[..i])
      invariant forall e :: e in seen <==> e in kept
    {
      assert events[..i + 1][..i] == events[..i];
      if events[i] !in seen {
        seen := seen + {events[i]};
        kept := kept + [events[i]];
      }
    }
    assert events[..|events|] == events;
  }

  function NewestFirst(time: string -> int): Event -> int { (e: Event) => -time(e.at) }

  /** All that is recorded: consents first, then activity. */
  function Recorded(history: seq<HistoryRow>, activity: seq<ActivityRow>): seq<Event> {
    HistoryEvents(history) + ActivityEvents(activity)
  }

  function Timeline(history: seq<HistoryRow>, activity: seq<ActivityRow>, time: string -> int): seq<Event> {
    Unrepeated(StableSort.Sorted(Recorded(history, activity), NewestFirst(time)))
  }

  predicate Descending(events: seq<Event>, time: string -> int) {
    forall i, j :: 0 <= i <= j < |events| ==> time(events[i].at) >= time(events[j].at)
  }

  predicate NoRepeats(events: seq<Event>) { forall i, j :: 0 <= i < j < |events| ==> events[i] != events[j] }

  lemma {:induction false} UnrepeatedKeeps(events: seq<Event>, time: string -> int)
    requires Descending(events, time)
    ensures Descending(Unrepeated(events), time) && NoRepeats(Unrepeated(events))
    ensures forall e :: e in Unrepeated(events) <==> e in events
  {
    if events == [] {
    } else {
      var front, last := events[..|events| - 1], events[|events| - 1];
      UnrepeatedKeeps(front, time);
      assert events == front + [last];
      forall i | 0 <= i < |Unrepeated(front)| ensures time(Unrepeated(front)[i].at) >= time(last.at) {
        assert Unrepeated(front)[i] in Unrepeated(front) && Unrepeated(front)[i] in front;
      }
    }
  }

  /** The timeline holds every recorded event once and nothing else, newest first. */
  lemma TimelineIsComplete(history: seq<HistoryRow>, activity: seq<ActivityRow>, time: string -> int)
    ensures var timeline := Timeline(history, activity, time);
      && Descending(timeline, time) && NoRepeats(timeline)
      && forall e :: e in timeline <==> e in Recorded(history, activity)
  {
    var all := Recorded(history, activity);
    var key := NewestFirst(time);
    var sorted := StableSort.Sorted(all, key);
    StableSort.SortedIsOrdered(all, key);
    assert forall i, j :: 0 <= i <= j < |sorted| ==> key(sorted[i]) <= key(sorted[j]);
    UnrepeatedKeeps(sorted, time);
    forall e ensures e in sorted <==> e in all { StableSort.SameMembers(all, key, e); }
  }

  // ---- the state of each policy ------------------------------------------------------------------

  datatype Status = Current | Outdated | Agreed | Revoked | NotAgreed

  predicate IsVersion(v: Option<int>) { v.Some? && v.value != 0 }

  /** `getPolicyStatus`. */
  function PolicyStatus(agreed: bool, version: Option<int>, active: Option<int>): Status {
    if !agreed then if IsVersion(version) then Revoked else NotAgreed
    else if !IsVersion(version) then NotAgreed
    else if !IsVersion(active) then Agreed
    else if version == active then Current
    else Outdated
  }

  function Latest(timeline: seq<Event>, kind: Kind): Option<Event> {
    if timeline == [] then None
    else if timeline[0].kind == kind then Some(timeline[0])
    else Latest(timeline[1..], kind)
  }

  /** The status shown for a policy. */
  function Shown(latest: Option<Event>, active: Option<int>): Status {
    if latest.Some? && !latest.value.agreed then Revoked
    else PolicyStatus(
      latest.Some? && latest.value.agreed, if latest.Some? then latest.value.version else None, active)
  }

  lemma {:induction false} LatestIsFirst(timeline: seq<Event>, kind: Kind, time: string -> int)
    requires Descending(timeline, time)
    ensures var latest := Latest(timeline, kind);
      match latest
      case None => forall e :: e in timeline ==> e.kind != kind
      case Some(l) =>
        l in timeline && l.kind == kind &&
        forall e :: e in timeline && e.kind == kind ==> time(e.at) <= time(l.at)
  {
    if timeline == [] {
    } else {
      assert timeline == [timeline[0]] + timeline[1..];
      if timeline[0].kind != kind {
        LatestIsFirst(timeline[1..], kind, time);
      } else {
        forall e | e in timeline ensures time(e.at) <= time(timeline[0].at) {
          var i :| 0 <= i < |timeline| && timeline[i] == e;
        }
      }
    }
  }

  /** The first event of a kind is no other after dropping repetitions. */
  lemma {:induction false} LatestUnrepeated(events: seq<Event>, kind: Kind)
    ensures Latest(Unrepeated(events), kind) == Latest(events, kind)
    ensures forall e :: e in Unrepeated(events) <==> e in events
  {
    if events == [] {
    } else {
      var front, last := events[..|events| - 1], events[|events| - 1];
      LatestUnrepeated(front, kind);
      assert events == front + [last];
      LatestAppend(front, last, kind);
      LatestAppend(Unrepeated(front), last, kind);
      NoLatest(front, kind);
    }
  }

  lemma {:induction false} LatestAppend(events: seq<Event>, e: Event, kind: Kind)
    ensures Latest(events + [e], kind) ==
      if Latest(events, kind).Some? then Latest(events, kind) else if e.kind == kind then Some(e) else None
  {
    if events == [] {
      assert [e][1..] == [];
    } else {
      LatestAppend(events[1..], e, kind);
      assert (events + [e])[1..] == events[1..] + [e];
    }
  }

  lemma {:induction false} NoLatest(events: seq<Event>, kind: Kind)
    ensures Latest(events, kind).None? <==> forall e :: e in events ==> e.kind != kind
  {
    if events == [] {
    } else {
      NoLatest(events[1..], kind);
      assert events == [events[0]] + events[1..];
    }
  }

  /** Among the events of the newest instant, those of other instants do not change which comes first. */
  lemma {:induction false} LatestOfItsInstant(events: seq<Event>, kind: Kind, key: Event -> int, k: int)
    requires Latest(events, kind).Some? && key(Latest(events, kind).value) == k
    ensures Latest(StableSort.WithKey(events, key, k), kind) == Latest(events, kind)
  {
    if events == [] {
    } else {
      var front, last := events[..|events| - 1], events[|events| - 1];
      assert events == front + [last];
      LatestAppend(front, last, kind);
      LatestAppend(StableSort.WithKey(front, key, k), last, kind);
      assert StableSort.WithKey(front, key, k) + [] == StableSort.WithKey(front, key, k);
      if Latest(front, kind).Some? {
        LatestOfItsInstant(front, kind, key, k);
      } else {
        NoLatest(front, kind);
        NoLatest(StableSort.WithKey(front, key, k), kind);
        StableSort.WithKeyOnly(front, key, k);
      }
    }
  }

  /** Where the first event of a kind among those of one instant stands among all events. */
  lemma {:induction false} FirstOfItsInstant(events: seq<Event>, kind: Kind, key: Event -> int, k: int) returns (i: nat)
    requires Latest(StableSort.WithKey(events, key, k), kind).Some?
    ensures i < |events| && Latest(StableSort.WithKey(events, key, k), kind) == Some(events[i])
    ensures events[i].kind == kind && key(events[i]) == k
    ensures forall j :: 0 <= j < i && events[j].kind == kind ==> key(events[j]) != k
  {
    var front, last := events[..|events| - 1], events[|events| - 1];
    var before := StableSort.WithKey(front, key, k);
    LatestAppend(before, last, kind);
    assert before + [] == before;
    if Latest(before, kind).Some? {
      i := FirstOfItsInstant(front, kind, key, k);
    } else {
      i := |front|;
      NoLatest(before, kind);
      StableSort.WithKeyOnly(front, key, k);
      forall j | 0 <= j < i && events[j].kind == kind ensures key(events[j]) != k {
        assert events[j] == front[j] && front[j] in front;
      }
    }
  }

  /** The event number `i` is the newest of its kind, and the first of those of its instant: at most one is. */
  predicate DecidesAt(events: seq<Event>, kind: Kind, time: string -> int, i: nat) {
    && i < |events| && events[i].kind == kind
    && (forall j :: 0 <= j < |events| && events[j].kind == kind ==> time(events[j].at) <= time(events[i].at))
    && (forall j :: 0 <= j < i && events[j].kind == kind ==> time(events[j].at) < time(events[i].at))
  }

  /** The event a policy's state is read from decides: at one instant, a consent before an activity. */
  lemma LatestDecides(history: seq<HistoryRow>, activity: seq<ActivityRow>, time: string -> int, kind: Kind)
    returns (i: nat)
    requires Latest(Timeline(history, activity, time), kind).Some?
    ensures var recorded := Recorded(history, activity);
      DecidesAt(recorded, kind, time, i) && Latest(Timeline(history, activity, time), kind) == Some(recorded[i])
  {
    var recorded := Recorded(history, activity);
    var key := NewestFirst(time);
    var sorted := StableSort.Sorted(recorded, key);
    LatestUnrepeated(sorted, kind);
    var latest := Latest(sorted, kind).value;
    LatestOfItsInstant(sorted, kind, key, key(latest));
    StableSort.SortedIsStable(recorded, key, key(latest));
    i := FirstOfItsInstant(recorded, kind, key, key(latest));
    TimelineIsComplete(history, activity, time);
    LatestIsFirst(Timeline(history, activity, time), kind, time);
    forall j | 0 <= j < |recorded| && recorded[j].kind == kind ensures time(recorded[j].at) <= time(recorded[i].at) {
      assert recorded[j] in recorded;
    }
  }

  /**
   The state of a policy is read from one recorded event: the newest of its kind and, of several at
   that instant, the first, consents before activity. It is not agreed exactly when there is none or
   it agreed to no version, current exactly when it agreed to the active version, and revoked exactly
   when it is a refusal, which can only happen to marketing.
   */
  lemma StateOfNewestEvent(
    history: seq<HistoryRow>, activity: seq<ActivityRow>, time: string -> int, kind: Kind, active: Option<int>)
    ensures var latest := Latest(Timeline(history, activity, time), kind);
      var recorded := Recorded(history, activity);
      var shown := Shown(latest, active);
      && (latest.None? <==> forall e :: e in recorded ==> e.kind != kind)
      && (latest.Some? ==> exists i: nat :: DecidesAt(recorded, kind, time, i) && latest.value == recorded[i])
      && (shown.Revoked? <==> latest.Some? && !latest.value.agreed)
      && (shown.Revoked? ==> kind.Marketing?)
      && (shown.NotAgreed? <==> latest.None? || (latest.value.agreed && !IsVersion(latest.value.version)))
      && (shown.Current? <==>
            latest.Some? && latest.value.agreed && IsVersion(active) && latest.value.version == active)
  {
    hide Timeline, ActivityEvents, DecidesAt;
    var recorded := Recorded(history, activity);
    TimelineIsComplete(history, activity, time);
    NoLatest(Timeline(history, activity, time), kind);
    if Latest(Timeline(history, activity, time), kind).Some? {
      var i := LatestDecides(history, activity, time, kind);
      KindOfDecision(recorded, kind, time, i);
      assert recorded[i] in recorded;
      if recorded[i] in ActivityEvents(activity) { ActivityIsStated(activity, recorded[i]); }
    }
  }

  /**
   The five states, told from the deciding event: a refusal is revoked; an agreement counts if it names a
   version, and is then current, outdated or, where no version is active, just agreed.
   */
  lemma StateMeans(latest: Option<Event>, active: Option<int>)
    ensures var named :=
        latest.Some? && latest.value.agreed && latest.value.version.Some? && latest.value.version != Some(0);
      var inForce := active.Some? && active != Some(0);
      match Shown(latest, active)
      case Revoked => latest.Some? && !latest.value.agreed
      case NotAgreed => !named && (latest.Some? ==> latest.value.agreed)
      case Agreed => named && !inForce
      case Current => named && inForce && latest.value.version == active
      case Outdated => named && inForce && latest.value.version != active
  {
  }

  lemma KindOfDecision(events: seq<Event>, kind: Kind, time: string -> int, i: nat)
    requires DecidesAt(events, kind, time, i)
    ensures i < |events| && events[i].kind == kind
  {
  }

  datatype PolicyState = PolicyState(kind: Kind, status: Status, version: Option<int>, at: Option<string>)

  function StateOf(timeline: seq<Event>, kind: Kind, active: Option<int>): PolicyState {
    var latest := Latest(timeline, kind);
    PolicyState(kind, Shown(latest, active), if latest.Some? then latest.value.version else None,
                if latest.Some? then Some(latest.value.at) else None)
  }

  /** `buildAdminMemberPolicyOverview`. */
  method BuildPolicyOverview(
    history: seq<HistoryRow>, activity: seq<ActivityRow>, time: string -> int, active: Kind -> Option<int>)
    returns (states: seq<PolicyState>, timeline: seq<Event>)
    ensures timeline == Timeline(history, activity, time)
    ensures |states| == |KINDS|
    ensures forall k :: 0 <= k < |KINDS| ==> states[k] == StateOf(timeline, KINDS[k], active(KINDS[k]))
  {
    var activityEvents := BuildActivityEvents(activity);
    timeline := FilterRepeated(StableSort.Sorted(HistoryEvents(history) + activityEvents, NewestFirst(time)));
    states := seq(|KINDS|, k requires 0 <= k < |KINDS| => StateOf(timeline, KINDS[k], active(KINDS[k])));
  }
}
