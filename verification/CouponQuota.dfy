/**
 Issue limits of `src/lib/ad-coupon-domain.ts`: the snapshots counted from issue records,
 the gate on them, and the number of issues still possible.
 */
module CouponQuota {
  import opened Wrappers
  import opened CouponPeriods

  /** `issuedAt` after `new Date`: an invalid date never matches. */
  datatype Timestamp = Unparsable | At(instant: Instant)

  datatype Record = Record(couponId: string, memberId: string, issuedAt: Timestamp)

  datatype Limits = Limits(daily: Option<int>, weekly: Option<int>, monthly: Option<int>)

  datatype Quota = Quota(limit: Option<int>, issued: int)

  datatype Snapshot = Snapshot(daily: Quota, weekly: Quota, monthly: Quota)

  function LimitFor(limits: Limits, period: Period): Option<int> {
    match period
    case Daily => limits.daily
    case Weekly => limits.weekly
    case Monthly => limits.monthly
  }

  function QuotaFor(snapshot: Snapshot, period: Period): Quota {
    match period
    case Daily => snapshot.daily
    case Weekly => snapshot.weekly
    case Monthly => snapshot.monthly
  }

  /** The records of one coupon that are valid and not in the future. */
  function Matching(records: seq<Record>, couponId: string, now: Instant): seq<Record> {
    if records == [] then []
    else
      var last := records[|records| - 1];
      Matching(records[..|records| - 1], couponId, now) +
      if last.couponId == couponId && last.issuedAt.At? && last.issuedAt.instant <= now then [last] else []
  }

  function OfMember(records: seq<Record>, memberId: string): seq<Record> {
    if records == [] then []
    else
      var last := records[|records| - 1];
      OfMember(records[..|records| - 1], memberId) + if last.memberId == memberId then [last] else []
  }

  function CountWithKey(records: seq<Record>, period: Period, key: string): nat {
    if records == [] then 0
    else
      var last := records[|records| - 1];
      CountWithKey(records[..|records| - 1], period, key) +
      if last.issuedAt.At? && PeriodKey(last.issuedAt.instant, period) == key then 1 else 0
  }

  function CouponSnapshot(couponId: string, limits: Limits, records: seq<Record>, now: Instant): Snapshot {
    var matching := Matching(records, couponId, now);
    Snapshot(
      Quota(limits.daily, CountWithKey(matching, Daily, PeriodKey(now, Daily))),
      Quota(limits.weekly, CountWithKey(matching, Weekly, PeriodKey(now, Weekly))),
      Quota(limits.monthly, CountWithKey(matching, Monthly, PeriodKey(now, Monthly))))
  }

  function MemberSnapshot(
    couponId: string, memberId: string, limits: Limits, records: seq<Record>, now: Instant): Snapshot
  {
    CouponSnapshot(couponId, limits, OfMember(records, memberId), now)
  }

  predicate Reached(quota: Quota) { quota.limit.Some? && quota.issued >= quota.limit.value }

  predicate LimitReached(snapshot: Snapshot) {
    Reached(snapshot.daily) || Reached(snapshot.weekly) || Reached(snapshot.monthly)
  }

  // ---- windows nest --------------------------------------------------------------------

  /** Whatever the records, a day's count never exceeds the count of its week or its month. */
  lemma DayWithinWeekAndMonth(couponId: string, limits: Limits, records: seq<Record>, now: Instant)
    ensures var s := CouponSnapshot(couponId, limits, records, now);
      0 <= s.daily.issued <= s.weekly.issued && s.daily.issued <= s.monthly.issued
  {
    DayCountBelow(Matching(records, couponId, now), Weekly, now);
    DayCountBelow(Matching(records, couponId, now), Monthly, now);
  }

  lemma {:induction false} DayCountBelow(records: seq<Record>, period: Period, now: Instant)
    ensures CountWithKey(records, Daily, PeriodKey(now, Daily)) <= CountWithKey(records, period, PeriodKey(now, period))
  {
    hide PeriodKey;
    if records == [] {
    } else {
      DayCountBelow(records[..|records| - 1], period, now);
      var last := records[|records| - 1];
      if last.issuedAt.At? && PeriodKey(last.issuedAt.instant, Daily) == PeriodKey(now, Daily) {
        DayInsideWeekAndMonth(last.issuedAt.instant, now);
      }
    }
  }

  // ---- the gate bounds every window of every run ----------------------------------------

  /** Issues of one coupon to one member inside the window that a key names. */
  function Issued(history: seq<Record>, couponId: string, memberId: string, period: Period, key: string): nat {
    if history == [] then 0
    else
      var last := history[|history| - 1];
      Issued(history[..|history| - 1], couponId, memberId, period, key) +
      if last.couponId == couponId && last.memberId == memberId && last.issuedAt.At? &&
         PeriodKey(last.issuedAt.instant, period) == key then 1 else 0
  }

  /** The record was added when the gate, on the snapshot of that instant, was open. */
  predicate PassedGate(earlier: seq<Record>, r: Record, limits: string -> Limits) {
    && r.issuedAt.At?
    && !LimitReached(MemberSnapshot(r.couponId, r.memberId, limits(r.couponId), earlier, r.issuedAt.instant))
  }

  predicate InWindow(r: Record, period: Period, key: string) {
    r.issuedAt.At? && PeriodKey(r.issuedAt.instant, period) == key
  }

  /** No earlier record of the same coupon and member lies in the record's window but after it. */
  predicate NoneLater(earlier: seq<Record>, r: Record, period: Period)
    requires r.issuedAt.At?
  {
    forall i :: 0 <= i < |earlier| ==>
      (earlier[i].couponId == r.couponId && earlier[i].memberId == r.memberId &&
       InWindow(earlier[i], period, PeriodKey(r.issuedAt.instant, period)) ==>
         earlier[i].issuedAt.instant <= r.issuedAt.instant)
  }

  /**
   A run, as far as one kind of window is concerned: records are appended one by one, each through
   the gate, and time does not step back inside a window of one coupon and member.
   */
  ghost predicate GatedRun(history: seq<Record>, limits: string -> Limits, period: Period) {
    forall i :: 0 <= i < |history| ==>
      PassedGate(history[..i], history[i], limits) && NoneLater(history[..i], history[i], period)
  }

  /** All four functions look at the newest record last. */
  lemma AppendRecord(
    records: seq<Record>, r: Record, couponId: string, memberId: string, now: Instant, period: Period, key: string)
    ensures OfMember(records + [r], memberId) ==
      OfMember(records, memberId) + if r.memberId == memberId then [r] else []
    ensures Matching(records + [r], couponId, now) == Matching(records, couponId, now) +
      if r.couponId == couponId && r.issuedAt.At? && r.issuedAt.instant <= now then [r] else []
    ensures CountWithKey(records + [r], period, key) ==
      CountWithKey(records, period, key) + if InWindow(r, period, key) then 1 else 0
    ensures Issued(records + [r], couponId, memberId, period, key) == Issued(records, couponId, memberId, period, key) +
      if r.couponId == couponId && r.memberId == memberId && InWindow(r, period, key) then 1 else 0
  {
    hide PeriodKey;
    assert (records + [r])[..|records|] == records;
  }

  /** The issues inside the window of `now` that the snapshot of `now` does not see, being later. */
  function IssuedLater(history: seq<Record>, couponId: string, memberId: string, period: Period, now: Instant): nat {
    if history == [] then 0
    else
      var last := history[|history| - 1];
      IssuedLater(history[..|history| - 1], couponId, memberId, period, now) +
      if last.couponId == couponId && last.memberId == memberId && InWindow(last, period, PeriodKey(now, period)) &&
         last.issuedAt.instant > now then 1 else 0
  }

  function Seen(history: seq<Record>, couponId: string, memberId: string, period: Period, now: Instant): nat {
    CountWithKey(Matching(OfMember(history, memberId), couponId, now), period, PeriodKey(now, period))
  }

  /** Whatever the order of the records, a window holds what the snapshot sees and what is later. */
  lemma {:induction false} SeenAndLater(
    history: seq<Record>, couponId: string, memberId: string, period: Period, now: Instant)
    ensures Seen(history, couponId, memberId, period, now) + IssuedLater(history, couponId, memberId, period, now)
         == Issued(history, couponId, memberId, period, PeriodKey(now, period))
  {
    if history == [] {
    } else {
      var front, last := history[..|history| - 1], history[|history| - 1];
      assert history == front + [last];
      SeenAndLater(front, couponId, memberId, period, now);
      SeenWithOneMore(front, last, couponId, memberId, period, now);
    }
  }

  lemma SeenWithOneMore(
    front: seq<Record>, last: Record, couponId: string, memberId: string, period: Period, now: Instant)
    ensures Seen(front + [last], couponId, memberId, period, now) - Seen(front, couponId, memberId, period, now) ==
      if last.couponId == couponId && last.memberId == memberId && InWindow(last, period, PeriodKey(now, period)) &&
         last.issuedAt.instant <= now then 1 else 0
  {
    var key := PeriodKey(now, period);
    var kept := OfMember(front, memberId);
    AppendRecord(front, last, couponId, memberId, now, period, key);
    AppendRecord(kept, last, couponId, memberId, now, period, key);
    AppendRecord(Matching(kept, couponId, now), last, couponId, memberId, now, period, key);
    assert kept + [] == kept && Matching(kept, couponId, now) + [] == Matching(kept, couponId, now);
    hide OfMember, Matching, CountWithKey, PeriodKey;
  }

  lemma {:induction false} NothingLater(history: seq<Record>, r: Record, period: Period)
    requires r.issuedAt.At?
    ensures IssuedLater(history, r.couponId, r.memberId, period, r.issuedAt.instant) == 0
       <==> NoneLater(history, r, period)
  {
    hide PeriodKey;
    if history == [] {
    } else {
      var front, last := history[..|history| - 1], history[|history| - 1];
      NothingLater(front, r, period);
      assert forall i :: 0 <= i < |front| ==> front[i] == history[i];
      assert NoneLater(history, r, period) ==> NoneLater(front, r, period);
    }
  }

  lemma SnapshotQuota(earlier: seq<Record>, r: Record, limits: Limits, period: Period)
    requires r.issuedAt.At?
    ensures var snapshot := MemberSnapshot(r.couponId, r.memberId, limits, earlier, r.issuedAt.instant);
      && QuotaFor(snapshot, period) ==
           Quota(LimitFor(limits, period), Seen(earlier, r.couponId, r.memberId, period, r.issuedAt.instant))
      && (LimitReached(snapshot) <==> exists p :: Reached(QuotaFor(snapshot, p)))
  {
    hide PeriodKey, Matching, OfMember, CountWithKey;
    var snapshot := MemberSnapshot(r.couponId, r.memberId, limits, earlier, r.issuedAt.instant);
    assert Reached(snapshot.daily) ==> Reached(QuotaFor(snapshot, Daily));
    assert Reached(snapshot.weekly) ==> Reached(QuotaFor(snapshot, Weekly));
    assert Reached(snapshot.monthly) ==> Reached(QuotaFor(snapshot, Monthly));
  }

  /** A record that passes the gate finds its own window below the limit, if nothing later is in it. */
  lemma GateFindsRoom(earlier: seq<Record>, r: Record, limits: string -> Limits, period: Period)
    requires r.issuedAt.At? && LimitFor(limits(r.couponId), period).Some?
    ensures PassedGate(earlier, r, limits) && NoneLater(earlier, r, period) ==>
      Issued(earlier, r.couponId, r.memberId, period, PeriodKey(r.issuedAt.instant, period))
        < LimitFor(limits(r.couponId), period).value
  {
    hide PeriodKey, Seen, Issued, IssuedLater, NoneLater, MemberSnapshot, LimitFor, LimitReached;
    SnapshotQuota(earlier, r, limits(r.couponId), period);
    SeenAndLater(earlier, r.couponId, r.memberId, period, r.issuedAt.instant);
    NothingLater(earlier, r, period);
  }

  /** Whatever the limits, passing the gate means that the record's window has room. */
  ghost predicate GateLeavesRoom(earlier: seq<Record>, r: Record, period: Period)
    requires r.issuedAt.At?
  {
    forall limits: string -> Limits ::
      PassedGate(earlier, r, limits) && LimitFor(limits(r.couponId), period).Some? ==>
        Issued(earlier, r.couponId, r.memberId, period, PeriodKey(r.issuedAt.instant, period))
          < LimitFor(limits(r.couponId), period).value
  }

  function OnlyLimit(period: Period, limit: int): Limits {
    match period
    case Daily => Limits(Some(limit), None, None)
    case Weekly => Limits(None, Some(limit), None)
    case Monthly => Limits(None, None, Some(limit))
  }

  lemma OnlyLimitApplies(period: Period, limit: int, other: Period)
    ensures LimitFor(OnlyLimit(period, limit), other) == if other == period then Some(limit) else None
  {
  }

  /** A limit just above what the snapshot sees lets the record pass. */
  lemma PassesUnderOwnLimit(earlier: seq<Record>, r: Record, period: Period, limits: string -> Limits)
    requires r.issuedAt.At?
    requires limits(r.couponId) ==
      OnlyLimit(period, Seen(earlier, r.couponId, r.memberId, period, r.issuedAt.instant) + 1)
    ensures PassedGate(earlier, r, limits)
  {
    hide PeriodKey, Seen, MemberSnapshot, LimitFor, LimitReached, OnlyLimit;
    var own := limits(r.couponId);
    var snapshot := MemberSnapshot(r.couponId, r.memberId, own, earlier, r.issuedAt.instant);
    SnapshotQuota(earlier, r, own, period);
    forall p ensures !Reached(QuotaFor(snapshot, p)) {
      SnapshotQuota(earlier, r, own, p);
      OnlyLimitApplies(period, Seen(earlier, r.couponId, r.memberId, period, r.issuedAt.instant) + 1, p);
    }
  }

  /**
   The gate keeps its promise for a record's window exactly when no earlier record of that coupon and
   member lies in the window at a later time; records of others and of other windows do not matter.
   */
  lemma RoomExactlyWhenNoneLater(earlier: seq<Record>, r: Record, period: Period)
    requires r.issuedAt.At?
    ensures GateLeavesRoom(earlier, r, period) <==> NoneLater(earlier, r, period)
  {
    hide PeriodKey, Seen, Issued, IssuedLater, NoneLater, PassedGate;
    var now := r.issuedAt.instant;
    if NoneLater(earlier, r, period) {
      forall limits: string -> Limits | PassedGate(earlier, r, limits) && LimitFor(limits(r.couponId), period).Some?
        ensures Issued(earlier, r.couponId, r.memberId, period, PeriodKey(now, period))
          < LimitFor(limits(r.couponId), period).value
      {
        GateFindsRoom(earlier, r, limits, period);
      }
    }
    if GateLeavesRoom(earlier, r, period) {
      var own := OnlyLimit(period, Seen(earlier, r.couponId, r.memberId, period, now) + 1);
      var limits: string -> Limits := _ => own;
      PassesUnderOwnLimit(earlier, r, period, limits);
      SeenAndLater(earlier, r.couponId, r.memberId, period, now);
      NothingLater(earlier, r, period);
      assert LimitFor(limits(r.couponId), period).Some?;
    }
  }

  /**
   No window of any run ever holds more issues to a member than the coupon's limit for it
   (a negative limit, like zero, admits none).
   */
  lemma {:induction false} EveryWindowIsBounded(
    history: seq<Record>, limits: string -> Limits, couponId: string, memberId: string, period: Period, key: string)
    requires GatedRun(history, limits, period)
    requires LimitFor(limits(couponId), period).Some?
    ensures var limit := LimitFor(limits(couponId), period).value;
      var n := Issued(history, couponId, memberId, period, key);
      n <= limit || n == 0
  {
    hide PeriodKey, MemberSnapshot, NoneLater;
    if history == [] {
    } else {
      var front, last := history[..|history| - 1], history[|history| - 1];
      assert forall i :: 0 <= i < |front| ==> front[..i] == history[..i];
      EveryWindowIsBounded(front, limits, couponId, memberId, period, key);
      assert PassedGate(front, last, limits) && NoneLater(front, last, period);
      if last.couponId == couponId && last.memberId == memberId && PeriodKey(last.issuedAt.instant, period) == key {
        GateFindsRoom(front, last, limits, period);
      }
    }
  }

  /** Records in non-decreasing time, each through the gate, are a run for all windows. */
  lemma OrderedTimeIsEnough(history: seq<Record>, limits: string -> Limits, period: Period)
    requires forall i :: 0 <= i < |history| ==> PassedGate(history[..i], history[i], limits)
    requires forall i, j :: 0 <= i < j < |history| && history[i].issuedAt.At? && history[j].issuedAt.At? ==>
      history[i].issuedAt.instant <= history[j].issuedAt.instant
    ensures GatedRun(history, limits, period)
  {
    hide PeriodKey;
    forall i | 0 <= i < |history| ensures NoneLater(history[..i], history[i], period) {
      assert PassedGate(history[..i], history[i], limits);
      assert forall k :: 0 <= k < i ==> history[..i][k] == history[k];
    }
  }

  /** The clock must not step back: the gate ignores later records, so a day limit of one admits two. */
  lemma BackwardClockExceedsLimit(first: Record, second: Record, limits: Limits)
    requires first == Record("c", "m", At(1000)) && second == Record("c", "m", At(0))
    requires limits == Limits(Some(1), None, None)
    ensures PassedGate([], first, _ => limits) && PassedGate([first], second, _ => limits)
    ensures Issued([first, second], "c", "m", Daily, PeriodKey(0, Daily)) == 2
  {
    hide PeriodKey;
    DailyKeysAgree(0, 1000);
    assert [first][..0] == [] && [first, second][..1] == [first];
    assert OfMember([first], "m") == [first];
    assert Matching([first], "c", 0) == [];
    var key := PeriodKey(0, Daily);
    assert [] + [first] == [first] && [first] + [second] == [first, second];
    AppendRecord([], first, "c", "m", 0, Daily, key);
    AppendRecord([first], second, "c", "m", 0, Daily, key);
  }

  // ---- how many issues are left ----------------------------------------------------------

  datatype Stock = Stock(daily: Quota, weekly: Quota, monthly: Quota, codePool: Option<int>)

  function Max0(n: int): nat { if n > 0 then n else 0 }

  /** `None` stands for positive infinity. */
  function RemainingQuota(quota: Quota): Option<nat> {
    if quota.limit.None? then None else Some(Max0(quota.limit.value - Max0(quota.issued)))
  }

  function MinRemaining(a: Option<nat>, b: Option<nat>): Option<nat> {
    if a.None? then b else if b.None? then a else if a.value <= b.value then a else b
  }

  function RemainingIssues(stock: Stock): Option<nat> {
    MinRemaining(RemainingQuota(stock.daily),
      MinRemaining(RemainingQuota(stock.weekly),
        MinRemaining(RemainingQuota(stock.monthly),
          if stock.codePool.None? then None else Some(Max0(stock.codePool.value)))))
  }

  /** The checks one more issue has to pass. */
  predicate Open(stock: Stock) {
    !Reached(stock.daily) && !Reached(stock.weekly) && !Reached(stock.monthly) &&
    (stock.codePool.Some? ==> stock.codePool.value > 0)
  }

  /** One issue charges every quota and takes one code. */
  function Charge(stock: Stock): Stock {
    Stock(stock.daily.(issued := stock.daily.issued + 1),
          stock.weekly.(issued := stock.weekly.issued + 1),
          stock.monthly.(issued := stock.monthly.issued + 1),
          if stock.codePool.None? then None else Some(stock.codePool.value - 1))
  }

  function ChargeTimes(stock: Stock, n: nat): Stock {
    if n == 0 then stock else Charge(ChargeTimes(stock, n - 1))
  }

  lemma UnlimitedExactlyWhenNull(stock: Stock)
    ensures RemainingIssues(stock) == None
       <==> stock.daily.limit.None? && stock.weekly.limit.None? && stock.monthly.limit.None? && stock.codePool.None?
  {
  }

  /** What is left of a quota whose count can be believed: it is not below zero, or over the limit anyway. */
  predicate Credible(quota: Quota) {
    quota.limit.Some? && (quota.issued >= 0 || quota.issued >= quota.limit.value)
  }

  function Left(quota: Quota): nat
    requires quota.limit.Some?
  {
    Max0(quota.limit.value - quota.issued)
  }

  /** A quota with a negative count that is still open does not run out before `left` more issues. */
  predicate Outlasts(left: nat, quota: Quota) {
    quota.limit.Some? && quota.issued < 0 && quota.issued < quota.limit.value ==> left <= Max0(quota.limit.value)
  }

  predicate NoneRunsOutBefore(left: nat, stock: Stock) {
    Outlasts(left, stock.daily) && Outlasts(left, stock.weekly) && Outlasts(left, stock.monthly)
  }

  /** Something with a credible count leaves no more than any quota with a negative count seems to. */
  predicate CountsCredible(stock: Stock) {
    || (Credible(stock.daily) && NoneRunsOutBefore(Left(stock.daily), stock))
    || (Credible(stock.weekly) && NoneRunsOutBefore(Left(stock.weekly), stock))
    || (Credible(stock.monthly) && NoneRunsOutBefore(Left(stock.monthly), stock))
    || (stock.codePool.Some? && NoneRunsOutBefore(Max0(stock.codePool.value), stock))
  }

  lemma {:induction false} ChargedBy(stock: Stock, n: nat)
    ensures ChargeTimes(stock, n) == Stock(
        stock.daily.(issued := stock.daily.issued + n),
        stock.weekly.(issued := stock.weekly.issued + n),
        stock.monthly.(issued := stock.monthly.issued + n),
        if stock.codePool.None? then None else Some(stock.codePool.value - n))
  {
    if n == 0 {
    } else {
      ChargedBy(stock, n - 1);
    }
  }

  /** Exactly `n` more issues pass the checks, one after the other, before one is refused. */
  ghost predicate AllowsExactly(stock: Stock, n: nat) {
    (forall k: nat :: k < n ==> Open(ChargeTimes(stock, k))) && !Open(ChargeTimes(stock, n))
  }

  lemma OpenBefore(stock: Stock, n: nat, k: nat)
    requires RemainingIssues(stock) == Some(n) && k < n
    ensures Open(ChargeTimes(stock, k))
  {
    ChargedBy(stock, k);
  }

  /** The announced number is the first at which something has run out. */
  lemma ClosedExactlyWhenCredible(stock: Stock, n: nat)
    requires RemainingIssues(stock) == Some(n)
    ensures !Open(ChargeTimes(stock, n)) <==> CountsCredible(stock)
  {
    ChargedBy(stock, n);
    hide ChargeTimes;
  }

  /** `getRemainingIssueCount` is that number exactly when the limits and counts are credible in this sense. */
  lemma RemainingIsExact(stock: Stock, n: nat)
    requires RemainingIssues(stock) == Some(n)
    ensures AllowsExactly(stock, n) <==> CountsCredible(stock)
  {
    hide RemainingIssues, Open, ChargeTimes, CountsCredible;
    ClosedExactlyWhenCredible(stock, n);
    forall k: nat | k < n
      ensures Open(ChargeTimes(stock, k))
    {
      OpenBefore(stock, n, k);
    }
  }

  lemma RemainingAfter(stock: Stock, n: nat, k: nat)
    requires RemainingIssues(stock) == Some(n) && k <= n
    requires stock.daily.issued >= 0 && stock.weekly.issued >= 0 && stock.monthly.issued >= 0
    ensures RemainingIssues(ChargeTimes(stock, k)) == Some(n - k)
  {
    ChargedBy(stock, k);
    hide ChargeTimes;
  }

  /** Counts of issued records are never negative; then each issue lowers the number by one. */
  lemma EachIssueTakesOne(stock: Stock, n: nat, k: nat)
    requires RemainingIssues(stock) == Some(n) && k <= n
    requires stock.daily.issued >= 0 && stock.weekly.issued >= 0 && stock.monthly.issued >= 0
    ensures AllowsExactly(stock, n) && RemainingIssues(ChargeTimes(stock, k)) == Some(n - k)
  {
    RemainingIsExact(stock, n);
    RemainingAfter(stock, n, k);
    hide ChargeTimes, AllowsExactly;
  }

  /** With a negative count the number is too small: three are announced, four pass. */
  lemma NegativeCountUnderreports(stock: Stock)
    requires stock == Stock(Quota(Some(3), -1), Quota(None, 0), Quota(None, 0), None)
    ensures RemainingIssues(stock) == Some(3) && AllowsExactly(stock, 4)
  {
    ChargedBy(stock, 4);
    forall k: nat | k < 4
      ensures Open(ChargeTimes(stock, k))
    {
      ChargedBy(stock, k);
    }
  }
}
