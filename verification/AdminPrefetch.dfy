/**
 The admin prefetch registry of `src/lib/admin-prefetch.ts`. Telemetry is a log; next to what
 the product event carries (stage, route key, trigger, age) an entry keeps the normalised
 address and the time of the call, so that runs can be talked about.
 */
module AdminPrefetch {
  import opened Wrappers

  const TTL_MS := 30_000

  datatype Trigger = Hover | Focus

  datatype Descriptor = Descriptor(key: string, path: string)

  /** URL normalisation and the route table, as the browser and the route rules define them. */
  datatype Router = Router(normalize: string -> Option<string>, describe: string -> Option<Descriptor>)

  datatype Record = Record(routeKey: string, path: string, requestedAt: int, trigger: Trigger)

  datatype Stage = Requested | Used(requestAgeMs: int)

  datatype Event = Event(stage: Stage, href: string, at: int, record: Record)

  datatype Usage = Usage(routeKey: string, requestAgeMs: int)

  predicate ShouldPrefetch(routeKey: string) {
    routeKey != "admin.member-signup-requests" && routeKey != "admin.member-signup-requests.detail"
  }

  /** The address a request is registered under, if its route is prefetched at all. */
  function Target(router: Router, href: string): Option<(string, Descriptor)> {
    var normalized := router.normalize(href);
    if normalized.None? || normalized.value == "" then None
    else
      var descriptor := router.describe(normalized.value);
      if descriptor.None? || !ShouldPrefetch(descriptor.value.key) then None
      else Some((normalized.value, descriptor.value))
  }

  datatype State = State(routes: map<string, Record>, log: seq<Event>)

  function Pruned(routes: map<string, Record>, now: int): map<string, Record> {
    map href | href in routes && now - routes[href].requestedAt <= TTL_MS :: routes[href]
  }

  function Marked(s: State, router: Router, href: string, trigger: Trigger, now: int): State {
    var target := Target(router, href);
    if target.None? then s
    else
      var (address, descriptor) := target.value;
      var routes := Pruned(s.routes, now);
      if address in routes then s.(routes := routes)
      else
        var record := Record(descriptor.key, descriptor.path, now, trigger);
        State(routes[address := record], s.log + [Event(Requested, address, now, record)])
  }

  function Age(record: Record, now: int): int {
    var elapsed := if now - record.requestedAt > 0 then now - record.requestedAt else 0;
    if elapsed < TTL_MS then elapsed else TTL_MS
  }

  function Consumed(s: State, router: Router, href: string, now: int): State {
    var normalized := router.normalize(href);
    if normalized.None? || normalized.value == "" then s
    else
      var routes := Pruned(s.routes, now);
      if normalized.value !in routes then s.(routes := routes)
      else
        var record := routes[normalized.value];
        State(routes - {normalized.value}, s.log + [Event(Used(Age(record, now)), normalized.value, now, record)])
  }

  class Registry {
    const router: Router
    var prefetchedRoutes: map<string, Record>
    var log: seq<Event>

    function Contents(): State
      reads this
    {
      State(prefetchedRoutes, log)
    }

    constructor (router: Router)
      ensures this.router == router && Contents() == State(map[], [])
    {
      this.router := router;
      prefetchedRoutes, log := map[], [];
    }

    /** `pruneExpiredPrefetches`: deletes while it iterates, in whatever order. */
    method Prune(now: int)
      modifies `prefetchedRoutes
      ensures prefetchedRoutes == Pruned(old(prefetchedRoutes), now)
    {
      var remaining := prefetchedRoutes.Keys;
      while remaining != {}
        invariant remaining <= prefetchedRoutes.Keys <= old(prefetchedRoutes.Keys)
        invariant forall href :: href in prefetchedRoutes ==> prefetchedRoutes[href] == old(prefetchedRoutes)[href]
        invariant forall href :: href in old(prefetchedRoutes) && href !in remaining ==>
          (href in prefetchedRoutes <==> now - old(prefetchedRoutes)[href].requestedAt <= TTL_MS)
        decreases remaining
      {
        var href :| href in remaining;
        remaining := remaining - {href};
        if now - prefetchedRoutes[href].requestedAt > TTL_MS {
          prefetchedRoutes := prefetchedRoutes - {href};
        }
      }
    }

    method Track(stage: Stage, href: string, at: int, record: Record)
      modifies `log
      ensures log == old(log) + [Event(stage, href, at, record)]
    {
      log := log + [Event(stage, href, at, record)];
    }

    /** `markAdminPrefetchIntent`. */
    method MarkIntent(href: string, trigger: Trigger, now: int) returns (marked: bool)
      modifies this
      ensures Contents() == Marked(old(Contents()), router, href, trigger, now)
      ensures marked <==> |log| > |old(log)|
    {
      var normalized := router.normalize(href);
      if normalized.None? || normalized.value == "" {
        return false;
      }
      var address := normalized.value;
      var descriptor := router.describe(address);
      if descriptor.None? || !ShouldPrefetch(descriptor.value.key) {
        return false;
      }
      Prune(now);
      if address in prefetchedRoutes {
        return false;
      }
      var record := Record(descriptor.value.key, descriptor.value.path, now, trigger);
      prefetchedRoutes := prefetchedRoutes[address := record];
      Track(Requested, address, now, record);
      return true;
    }

    /** `consumeAdminPrefetchUsage`. */
    method ConsumeUsage(href: string, now: int) returns (usage: Option<Usage>)
      modifies this
      ensures Contents() == Consumed(old(Contents()), router, href, now)
      ensures usage.Some? <==> |log| > |old(log)|
      ensures usage.Some? ==> var e := log[|log| - 1]; usage.value == Usage(e.record.routeKey, e.stage.requestAgeMs)
    {
      var normalized := router.normalize(href);
      if normalized.None? || normalized.value == "" {
        return None;
      }
      var address := normalized.value;
      Prune(now);
      if address !in prefetchedRoutes {
        return None;
      }
      var record := prefetchedRoutes[address];
      prefetchedRoutes := prefetchedRoutes - {address};
      var requestAgeMs := Age(record, now);
      Track(Used(requestAgeMs), address, now, record);
      return Some(Usage(record.routeKey, requestAgeMs));
    }
  }

  // ---- runs ----------------------------------------------------------------------------------

  datatype Call = Mark(href: string, trigger: Trigger, now: int) | Consume(href: string, now: int)

  function Step(s: State, router: Router, call: Call): State {
    match call
    case Mark(href, trigger, now) => Marked(s, router, href, trigger, now)
    case Consume(href, now) => Consumed(s, router, href, now)
  }

  function Run(router: Router, calls: seq<Call>): State {
    if calls == [] then State(map[], [])
    else Step(Run(router, calls[..|calls| - 1]), router, calls[|calls| - 1])
  }

  /** The clock never goes back between calls. */
  predicate NonDecreasing(calls: seq<Call>) {
    forall i, j :: 0 <= i <= j < |calls| ==> calls[i].now <= calls[j].now
  }

  /** The position of the last event of an address, or -1. */
  function LastOf(log: seq<Event>, href: string): (i: int)
    ensures -1 <= i < |log| && (i >= 0 ==> log[i].href == href)
  {
    if log == [] then -1
    else if log[|log| - 1].href == href then |log| - 1
    else LastOf(log[..|log| - 1], href)
  }

  predicate LastRequested(log: seq<Event>, href: string) {
    LastOf(log, href) >= 0 && log[LastOf(log, href)].stage.Requested?
  }

  /** A use takes the latest event of its address, which is a request, at most TTL old. */
  predicate UseIsEarned(log: seq<Event>, e: Event) {
    LastRequested(log, e.href) &&
    var request := log[LastOf(log, e.href)];
    request.record == e.record && 0 <= e.at - request.at <= TTL_MS && e.stage == Used(e.at - request.at)
  }

  /** A request whose address was last requested, and not used since, comes more than TTL later. */
  predicate RequestIsSpaced(log: seq<Event>, e: Event) {
    LastRequested(log, e.href) ==> e.at - log[LastOf(log, e.href)].at > TTL_MS
  }

  predicate Justified(log: seq<Event>, e: Event) {
    if e.stage.Requested? then RequestIsSpaced(log, e) else UseIsEarned(log, e)
  }

  predicate LogIsJustified(log: seq<Event>) {
    log != [] ==> LogIsJustified(log[..|log| - 1]) && Justified(log[..|log| - 1], log[|log| - 1])
  }

  predicate RecordsAreOpen(s: State) {
    forall href :: href in s.routes ==>
      LastRequested(s.log, href) && s.log[LastOf(s.log, href)].record == s.routes[href] &&
      s.log[LastOf(s.log, href)].at == s.routes[href].requestedAt
  }

  ghost predicate OpenOrExpired(s: State, clock: int) {
    forall href :: LastRequested(s.log, href) ==>
      href in s.routes || clock - s.log[LastOf(s.log, href)].at > TTL_MS
  }

  /** Events are in the order of their times, none later than the clock. */
  predicate Chronological(log: seq<Event>, clock: int) {
    (forall i :: 0 <= i < |log| ==> log[i].at <= clock) &&
    (forall i, j :: 0 <= i <= j < |log| ==> log[i].at <= log[j].at)
  }

  ghost predicate Inv(s: State, clock: int) {
    RecordsAreOpen(s) && OpenOrExpired(s, clock) && Chronological(s.log, clock) && LogIsJustified(s.log)
  }

  lemma PruneKeepsInv(s: State, clock: int, now: int)
    requires Inv(s, clock) && clock <= now
    ensures Inv(s.(routes := Pruned(s.routes, now)), now)
  {
  }

  lemma WaitKeepsInv(s: State, clock: int, now: int)
    requires Inv(s, clock) && clock <= now
    ensures Inv(s, now)
  {
  }

  lemma LastOfAppend(log: seq<Event>, e: Event, href: string)
    ensures LastOf(log + [e], href) == if href == e.href then |log| else LastOf(log, href)
    ensures LastRequested(log + [e], href) <==> if href == e.href then e.stage.Requested? else LastRequested(log, href)
  {
    assert (log + [e])[..|log|] == log;
  }

  /** The registry after an event: the event's own address is registered by a request, else gone. */
  function After(routes: map<string, Record>, e: Event): map<string, Record> {
    if e.stage.Requested? then routes[e.href := e.record] else routes - {e.href}
  }

  lemma AppendKeepsRecords(s: State, e: Event)
    requires RecordsAreOpen(s) && (e.stage.Requested? ==> e.record.requestedAt == e.at)
    ensures RecordsAreOpen(State(After(s.routes, e), s.log + [e]))
  {
    forall href | href in After(s.routes, e)
      ensures LastOf(s.log + [e], href) == if href == e.href then |s.log| else LastOf(s.log, href)
      ensures LastRequested(s.log + [e], href)
    {
      LastOfAppend(s.log, e, href);
    }
  }

  lemma AppendKeepsExpiry(s: State, clock: int, e: Event)
    requires OpenOrExpired(s, clock)
    ensures OpenOrExpired(State(After(s.routes, e), s.log + [e]), clock)
  {
    forall href | LastRequested(s.log + [e], href)
      ensures href in After(s.routes, e) || clock - (s.log + [e])[LastOf(s.log + [e], href)].at > TTL_MS
    {
      LastOfAppend(s.log, e, href);
    }
  }

  lemma AppendKeepsInv(s: State, now: int, e: Event)
    requires Inv(s, now) && e.at == now && Justified(s.log, e)
    requires e.stage.Requested? ==> e.record.requestedAt == now
    ensures Inv(State(After(s.routes, e), s.log + [e]), now)
  {
    AppendKeepsRecords(s, e);
    AppendKeepsExpiry(s, now, e);
    assert (s.log + [e])[..|s.log|] == s.log;
    hide LastOf, Justified, RecordsAreOpen, OpenOrExpired;
  }

  lemma MarkKeepsInv(s: State, router: Router, href: string, trigger: Trigger, clock: int, now: int)
    requires Inv(s, clock) && clock <= now
    ensures Inv(Marked(s, router, href, trigger, now), now)
  {
    var target := Target(router, href);
    WaitKeepsInv(s, clock, now);
    if target.Some? {
      var pruned := s.(routes := Pruned(s.routes, now));
      PruneKeepsInv(s, clock, now);
      var address := target.value.0;
      if address !in pruned.routes {
        var record := Record(target.value.1.key, target.value.1.path, now, trigger);
        AppendKeepsInv(pruned, now, Event(Requested, address, now, record));
      }
    }
  }

  lemma ConsumeKeepsInv(s: State, router: Router, href: string, clock: int, now: int)
    requires Inv(s, clock) && clock <= now
    ensures Inv(Consumed(s, router, href, now), now)
  {
    var normalized := router.normalize(href);
    WaitKeepsInv(s, clock, now);
    if normalized.Some? && normalized.value != "" {
      var pruned := s.(routes := Pruned(s.routes, now));
      PruneKeepsInv(s, clock, now);
      if normalized.value in pruned.routes {
        var record := pruned.routes[normalized.value];
        var e := Event(Used(Age(record, now)), normalized.value, now, record);
        assert UseIsEarned(pruned.log, e);
        AppendKeepsInv(pruned, now, e);
      }
    }
  }

  lemma StepKeepsInv(s: State, router: Router, call: Call, clock: int)
    requires Inv(s, clock) && clock <= call.now
    ensures Inv(Step(s, router, call), call.now)
  {
    hide Inv, Marked, Consumed;
    match call
    case Mark(href, trigger, now) => MarkKeepsInv(s, router, href, trigger, clock, now);
    case Consume(href, now) => ConsumeKeepsInv(s, router, href, clock, now);
  }

  lemma {:induction false} RunKeepsInv(router: Router, calls: seq<Call>, clock: int)
    requires NonDecreasing(calls) && (calls != [] ==> clock == calls[|calls| - 1].now)
    ensures Inv(Run(router, calls), clock)
  {
    if calls == [] {
    } else {
      var front := calls[..|calls| - 1];
      var before := if front == [] then clock else front[|front| - 1].now;
      RunKeepsInv(router, front, before);
      StepKeepsInv(Run(router, front), router, calls[|calls| - 1], before);
    }
  }

  lemma {:induction false} JustifiedAt(log: seq<Event>, j: nat)
    requires LogIsJustified(log) && j < |log|
    ensures Justified(log[..j], log[j])
  {
    if j == |log| - 1 {
    } else {
      JustifiedAt(log[..|log| - 1], j);
      assert log[..|log| - 1][..j] == log[..j];
    }
  }

  lemma {:induction false} NoneAfterLast(log: seq<Event>, href: string, k: nat)
    requires LastOf(log, href) < k < |log|
    ensures log[k].href != href
  {
    if k == |log| - 1 {
    } else {
      NoneAfterLast(log[..|log| - 1], href, k);
    }
  }

  // ---- what a run guarantees -----------------------------------------------------------------

  ghost predicate Reachable(log: seq<Event>) {
    exists router: Router, calls: seq<Call> :: NonDecreasing(calls) && log == Run(router, calls).log
  }

  lemma ReachableLog(log: seq<Event>)
    requires Reachable(log)
    ensures LogIsJustified(log) && forall i, j :: 0 <= i <= j < |log| ==> log[i].at <= log[j].at
  {
    var router: Router, calls: seq<Call> :| NonDecreasing(calls) && log == Run(router, calls).log;
    RunKeepsInv(router, calls, if calls == [] then 0 else calls[|calls| - 1].now);
  }

  predicate Prunes(router: Router, call: Call) {
    match call
    case Mark(href, _, _) => Target(router, href).Some?
    case Consume(href, _) => router.normalize(href).Some? && router.normalize(href).value != ""
  }

  /** Right after a call that prunes, no registered request is older than the TTL. */
  lemma NothingStale(s: State, router: Router, call: Call)
    requires Prunes(router, call)
    ensures var routes := Step(s, router, call).routes;
      forall href :: href in routes ==> call.now - routes[href].requestedAt <= TTL_MS
  {
  }

  /** The event a use consumes. */
  function Consumes(log: seq<Event>, j: nat): int
    requires j < |log|
  {
    LastOf(log[..j], log[j].href)
  }

  /**
   A use consumes an earlier request of its address and route, at most TTL old, with no event of
   that address in between; the age it reports is the true one; no request is consumed twice.
   */
  lemma UseConsumesRequest(log: seq<Event>, j: nat)
    requires Reachable(log) && j < |log| && log[j].stage.Used?
    ensures var i := Consumes(log, j);
      && 0 <= i < j && log[i].stage.Requested? && log[i].href == log[j].href && log[i].record == log[j].record
      && 0 <= log[j].at - log[i].at <= TTL_MS && log[j].stage == Used(log[j].at - log[i].at)
      && forall k :: i < k < j ==> log[k].href != log[j].href
    ensures forall k :: j < k < |log| && log[k].stage.Used? ==> Consumes(log, k) != Consumes(log, j)
  {
    ReachableLog(log);
    JustifiedAt(log, j);
    var i := Consumes(log, j);
    forall k | i < k < j ensures log[k].href != log[j].href {
      NoneAfterLast(log[..j], log[j].href, k);
    }
    forall k | j < k < |log| && log[k].stage.Used? ensures Consumes(log, k) != i {
      JustifiedAt(log, k);
      if Consumes(log, k) == i {
        NoneAfterLast(log[..k], log[k].href, j);
      }
    }
  }

  /** Two requests for one address with no use of it in between are more than TTL apart. */
  lemma RequestsAreSpaced(log: seq<Event>, i: nat, j: nat)
    requires Reachable(log) && i < j < |log|
    requires log[i].stage.Requested? && log[j].stage.Requested? && log[i].href == log[j].href
    requires forall k :: i < k < j && log[k].href == log[j].href ==> log[k].stage.Requested?
    ensures log[j].at - log[i].at > TTL_MS
  {
    ReachableLog(log);
    JustifiedAt(log, j);
    var last := Consumes(log, j);
    if last < i {
      NoneAfterLast(log[..j], log[j].href, i);
    }
  }

  function Requests(log: seq<Event>, routeKey: string): nat {
    if log == [] then 0
    else
      var e := log[|log| - 1];
      Requests(log[..|log| - 1], routeKey) + if e.stage.Requested? && e.record.routeKey == routeKey then 1 else 0
  }

  function Uses(log: seq<Event>, routeKey: string): nat {
    if log == [] then 0
    else
      var e := log[|log| - 1];
      Uses(log[..|log| - 1], routeKey) + if e.stage.Used? && e.record.routeKey == routeKey then 1 else 0
  }

  /** The addresses of a route whose latest event is a request. */
  function Open(log: seq<Event>, routeKey: string): set<string> {
    if log == [] then {}
    else
      var e := log[|log| - 1];
      Open(log[..|log| - 1], routeKey) - {e.href} +
      if e.stage.Requested? && e.record.routeKey == routeKey then {e.href} else {}
  }

  lemma {:induction false} OpenIsLastRequested(log: seq<Event>, routeKey: string, href: string)
    ensures href in Open(log, routeKey) <==>
      LastRequested(log, href) && log[LastOf(log, href)].record.routeKey == routeKey
  {
    if log == [] {
    } else {
      var front := log[..|log| - 1];
      OpenIsLastRequested(front, routeKey, href);
      LastOfAppend(front, log[|log| - 1], href);
      assert log == front + [log[|log| - 1]];
    }
  }

  lemma {:induction false} UsesAndOpen(log: seq<Event>, routeKey: string)
    requires LogIsJustified(log)
    ensures Uses(log, routeKey) + |Open(log, routeKey)| <= Requests(log, routeKey)
  {
    if log == [] {
    } else {
      var front, e := log[..|log| - 1], log[|log| - 1];
      UsesAndOpen(front, routeKey);
      OpenIsLastRequested(front, routeKey, e.href);
      var open := Open(front, routeKey);
      assert |open - {e.href}| == |open| - if e.href in open then 1 else 0;
    }
  }

  /** No route is ever used more often than it was requested. */
  lemma UsedAtMostRequested(log: seq<Event>, routeKey: string)
    requires Reachable(log)
    ensures Uses(log, routeKey) <= Requests(log, routeKey)
  {
    ReachableLog(log);
    UsesAndOpen(log, routeKey);
  }

  // ---- which calls are logged ------------------------------------------------------------------------

  /** The address was requested at most 30 seconds ago and not used since. */
  predicate IsWaiting(log: seq<Event>, address: string, now: int) {
    LastRequested(log, address) && now - log[LastOf(log, address)].at <= 30_000
  }

  /** The route is known and not one of the two that are left out of prefetching. */
  predicate IsPrefetched(router: Router, address: string) {
    var descriptor := router.describe(address);
    descriptor.Some? && descriptor.value.key != "admin.member-signup-requests" &&
    descriptor.value.key != "admin.member-signup-requests.detail"
  }

  predicate IsAddress(router: Router, href: string, address: string) {
    address != "" && router.normalize(href) == Some(address)
  }

  lemma WaitingIsRegistered(s: State, clock: int, address: string, now: int)
    requires Inv(s, clock) && clock <= now
    ensures IsWaiting(s.log, address, now) <==> address in Pruned(s.routes, now)
    ensures IsWaiting(s.log, address, now) ==>
      var request := s.log[LastOf(s.log, address)];
      s.routes[address] == request.record && request.record.requestedAt == request.at
  {
    hide LogIsJustified, Chronological, LastOf;
  }

  /**
   In any run, an intent is logged as a request exactly when it is for a prefetched route whose address is
   not waiting; otherwise it leaves no trace.
   */
  lemma IntentIsLogged(router: Router, calls: seq<Call>, href: string, trigger: Trigger, now: int)
    requires NonDecreasing(calls + [Mark(href, trigger, now)])
    ensures var before := Run(router, calls).log; var after := Run(router, calls + [Mark(href, trigger, now)]).log;
      && ((forall address :: IsAddress(router, href, address) ==>
             !IsPrefetched(router, address) || IsWaiting(before, address, now)) ==> after == before)
      && (forall address ::
            IsAddress(router, href, address) && IsPrefetched(router, address) && !IsWaiting(before, address, now) ==>
              var route := router.describe(address).value;
              after == before + [Event(Requested, address, now, Record(route.key, route.path, now, trigger))])
  {
    var call := Mark(href, trigger, now);
    var clock := LastClock(calls, call);
    OneMoreCall(router, calls, call, clock);
    var s := Run(router, calls);
    var normalized := router.normalize(href);
    if normalized.Some? && normalized.value != "" {
      assert IsAddress(router, href, normalized.value);
      WaitingIsRegistered(s, clock, normalized.value, now);
    }
    hide Run, Inv, LastRequested, LastOf;
  }

  /** Following a link is logged as a use exactly when its address is waiting, with the request's record and age. */
  lemma UseIsLogged(router: Router, calls: seq<Call>, href: string, now: int)
    requires NonDecreasing(calls + [Consume(href, now)])
    ensures var before := Run(router, calls).log; var after := Run(router, calls + [Consume(href, now)]).log;
      && ((forall address :: IsAddress(router, href, address) ==> !IsWaiting(before, address, now)) ==> after == before)
      && (forall address :: IsAddress(router, href, address) && IsWaiting(before, address, now) ==>
            var request := before[LastOf(before, address)];
            after == before + [Event(Used(now - request.at), address, now, request.record)])
  {
    var call := Consume(href, now);
    var clock := LastClock(calls, call);
    OneMoreCall(router, calls, call, clock);
    var s := Run(router, calls);
    var normalized := router.normalize(href);
    if normalized.Some? && normalized.value != "" {
      assert IsAddress(router, href, normalized.value);
      WaitingIsRegistered(s, clock, normalized.value, now);
      NotInTheFuture(s, clock, normalized.value);
    }
    hide Run, Inv, LastRequested;
  }

  lemma NotInTheFuture(s: State, clock: int, address: string)
    requires Inv(s, clock)
    ensures LastRequested(s.log, address) ==> s.log[LastOf(s.log, address)].at <= clock
  {
  }

  function LastClock(calls: seq<Call>, call: Call): int { if calls == [] then call.now else calls[|calls| - 1].now }

  lemma OneMoreCall(router: Router, calls: seq<Call>, call: Call, clock: int)
    requires NonDecreasing(calls + [call]) && clock == LastClock(calls, call)
    ensures Inv(Run(router, calls), clock) && clock <= call.now
    ensures Run(router, calls + [call]) == Step(Run(router, calls), router, call)
  {
    var all := calls + [call];
    assert all[..|calls|] == calls && all[|calls|] == call;
    assert forall i :: 0 <= i < |calls| ==> all[i] == calls[i];
    assert NonDecreasing(calls);
    RunKeepsInv(router, calls, clock);
  }
}
