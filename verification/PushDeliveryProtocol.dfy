/**
 `runPushDeliveryAttempt` as a protocol between any number of concurrent attempts, the
 ledger and the push provider.

 A request joins its attempt's `wire` when the attempt issues it. The database may apply it at any
 later time, even after the attempt has seen an exception, given up or died, so a call that
 "throws" may have taken effect before, may take effect later, or never. A run is any list
 of events; an event that is not possible in a state leaves it unchanged.
 */
module PushDeliveryProtocol {
  import opened Wrappers
  import opened DeliveryLedger

  type Key = string
  type AttemptId = nat

  const LEASE_SECONDS: int := 5 * 60

  datatype Operation = Request(to: Transition) | ClaimRequest

  datatype Answer = Disposed(disposition: Disposition) | Updated(ok: bool)

  datatype Outcome =
    | SentOutcome(providerCalled: bool)
    | FailedOutcome
    | ProviderFailed(confirmed: bool)
    | Unreconciled

  /** The `await` an attempt is suspended at, or how it ended. */
  datatype Point =
    | AwaitClaim
    | AwaitSending
    | AwaitProvider
    | AwaitSent
    | AwaitReconciliation
    | AwaitFailed
    | Finished(outcome: Outcome)
    | Stopped

  /** What is known about this attempt's one call of `send()`. */
  datatype Call = NotCalled | InFlight | Resolved | Rejected

  /**
   One attempt: where it is, its requests not yet applied (`wire`), and what it has heard
   from the ledger and asked of it so far.
   */
  datatype Attempt = Attempt(key: Key, point: Point, call: Call, wire: set<Operation>,
                             heard: set<(Operation, Answer)>, asked: set<Operation>)

  /** `deliveries` counts, for each key, how often a `send()` has resolved. */
  datatype State = State(
    ledger: map<Key, Row>,
    attempts: map<AttemptId, Attempt>,
    deliveries: multiset<Key>)

  datatype Event =
    | Start(id: AttemptId, key: Key)
    | Apply(id: AttemptId, op: Operation, now: int, heard: bool)
    | Throw(id: AttemptId)
    | Resolve(id: AttemptId)
    | Reject(id: AttemptId)
    | Stop(id: AttemptId)

  const INITIAL: State := State(map[], map[], multiset{})

  // ---- the attempt's code between two awaits ------------------------------------------

  /** The ledger request issued on reaching a point. */
  function RequestAt(point: Point): Option<Operation> {
    match point
    case AwaitClaim => Some(ClaimRequest)
    case AwaitSending => Some(Request(ToSending))
    case AwaitSent => Some(Request(ToSent))
    case AwaitReconciliation => Some(Request(ToNeedsReconciliation))
    case AwaitFailed => Some(Request(ToFailed))
    case _ => None
  }

  function AfterAnswer(point: Point, answer: Answer): Point {
    match (point, answer)
    case (AwaitClaim, Disposed(AlreadySent)) => Finished(SentOutcome(false))
    case (AwaitClaim, Disposed(Granted)) => AwaitSending
    case (AwaitClaim, Disposed(_)) => Finished(FailedOutcome)
    case (AwaitSending, Updated(ok)) => if ok then AwaitProvider else Finished(FailedOutcome)
    case (AwaitSent, Updated(ok)) => if ok then Finished(SentOutcome(true)) else AwaitReconciliation
    case (AwaitReconciliation, Updated(_)) => Finished(Unreconciled)
    case (AwaitFailed, Updated(ok)) => Finished(ProviderFailed(ok))
    case _ => point
  }

  function AfterThrow(point: Point): Point {
    match point
    case AwaitClaim => Finished(FailedOutcome)
    case AwaitSending => Finished(FailedOutcome)
    case AwaitSent => AwaitReconciliation
    case AwaitReconciliation => Finished(Unreconciled)
    case AwaitFailed => Finished(ProviderFailed(false))
    case _ => point
  }

  // ---- one event ----------------------------------------------------------------------

  /** The attempt continues at `point` and issues the request of that point. */
  function Continue(attempt: Attempt, point: Point): Attempt {
    match RequestAt(point)
    case None => attempt.(point := point)
    case Some(op) => attempt.(point := point, asked := attempt.asked + {op}, wire := attempt.wire + {op})
  }

  function RowOf(ledger: map<Key, Row>, key: Key): Option<Row> {
    if key in ledger then Some(ledger[key]) else None
  }

  function ApplyToRow(row: Option<Row>, op: Operation, now: int): (Option<Row>, Answer) {
    match op
    case ClaimRequest =>
      var (after, disposition) := Claim(row, now, LEASE_SECONDS);
      (Some(after), Disposed(disposition))
    case Request(to) =>
      match row
      case None => (None, Updated(false))
      case Some(r) =>
        var (after, ok) := Move(r, to, now);
        (Some(after), Updated(ok))
  }

  function Hear(attempt: Attempt, op: Operation, answer: Answer): Attempt {
    var point := AfterAnswer(attempt.point, answer);
    var call := if point.AwaitProvider? then InFlight else attempt.call;
    Continue(attempt.(call := call, heard := attempt.heard + {(op, answer)}), point)
  }

  predicate Possible(s: State, e: Event) {
    match e
    case Start(id, _) => id !in s.attempts
    case Apply(id, op, _, heard) =>
      id in s.attempts && op in s.attempts[id].wire && (heard ==> RequestAt(s.attempts[id].point) == Some(op))
    case Throw(id) => id in s.attempts && RequestAt(s.attempts[id].point).Some?
    case Resolve(id) => id in s.attempts && s.attempts[id].point.AwaitProvider?
    case Reject(id) => id in s.attempts && s.attempts[id].point.AwaitProvider?
    case Stop(id) => id in s.attempts && !s.attempts[id].point.Finished?
  }

  /** The attempt's record after an event that does not reach the ledger. */
  function Locally(attempt: Attempt, e: Event): Attempt {
    match e
    case Throw(_) => Continue(attempt, AfterThrow(attempt.point))
    case Resolve(_) => Continue(attempt.(call := Resolved), AwaitSent)
    case Reject(_) => Continue(attempt.(call := Rejected), AwaitFailed)
    case Stop(_) => attempt.(point := Stopped)
    case _ => attempt
  }

  function NewAttempt(key: Key): Attempt {
    Continue(Attempt(key, AwaitClaim, NotCalled, {}, {}, {}), AwaitClaim)
  }

  /** The ledger row and the attempt's record after the database applies one of its requests. */
  function Applied(row: Option<Row>, attempt: Attempt, op: Operation, now: int, heard: bool): (Option<Row>, Attempt) {
    var (after, answer) := ApplyToRow(row, op, now);
    var received := attempt.(wire := attempt.wire - {op});
    (after, if heard then Hear(received, op, answer) else received)
  }

  function Perform(s: State, e: Event): State {
    if !Possible(s, e) then s else
    match e
    case Start(id, key) => s.(attempts := s.attempts[id := NewAttempt(key)])
    case Apply(id, op, now, heard) =>
      var key := s.attempts[id].key;
      var (row, attempt) := Applied(RowOf(s.ledger, key), s.attempts[id], op, now, heard);
      s.(ledger := if row.Some? then s.ledger[key := row.value] else s.ledger, attempts := s.attempts[id := attempt])
    case Resolve(id) =>
      s.(attempts := s.attempts[id := Locally(s.attempts[id], e)],
         deliveries := s.deliveries + multiset{s.attempts[id].key})
    case _ => s.(attempts := s.attempts[e.id := Locally(s.attempts[e.id], e)])
  }

  function Run(s: State, events: seq<Event>): State
    decreases |events|
  {
    if events == [] then s else Run(Perform(s, events[0]), events[1..])
  }

  // ---- the invariant ------------------------------------------------------------------

  /** The attempt may have reached the provider with a message that was not refused. */
  predicate Live(attempt: Attempt) { attempt.call.InFlight? || attempt.call.Resolved? }

  /** The attempt still owns the row's `sending` mark: live, or its refusal is not yet recorded. */
  predicate Grips(attempt: Attempt) { Live(attempt) || Request(ToFailed) in attempt.wire }

  predicate DeliveredBySomeone(s: State, key: Key) {
    exists id :: id in s.attempts && s.attempts[id].key == key && s.attempts[id].call.Resolved?
  }

  /** What the code of one attempt keeps true of its own record. */
  predicate AttemptOk(a: Attempt) {
    && (Request(ToFailed) in a.asked ==> a.call.Rejected?)
    && (Request(ToSent) in a.asked || Request(ToNeedsReconciliation) in a.asked ==> a.call.Resolved?)
    && (RequestAt(a.point).Some? ==> RequestAt(a.point).value in a.asked)
    && a.wire <= a.asked
    && match a.point
       case AwaitClaim => a.call.NotCalled?
       case AwaitSending => a.call.NotCalled?
       case AwaitProvider => a.call.InFlight?
       case AwaitSent => a.call.Resolved?
       case AwaitReconciliation => a.call.Resolved?
       case AwaitFailed => a.call.Rejected?
       case Finished(SentOutcome(called)) => a.call == if called then Resolved else NotCalled
       case Finished(FailedOutcome) => a.call.NotCalled?
       case Finished(ProviderFailed(_)) => a.call.Rejected?
       case Finished(Unreconciled) => a.call.Resolved?
       case Stopped => true
  }

  predicate IsSent(row: Option<Row>) { row.Some? && row.value.status.Sent? }

  /** The row a gripping attempt leaves: marked, delivered or waiting for a person. */
  predicate IsHeld(row: Option<Row>) { row.Some? && (row.value.provider.Sending? || Settled(row.value)) }

  /** How an attempt's record and its ledger row fit together. */
  predicate Fits(a: Attempt, row: Option<Row>) {
    && (Grips(a) ==> IsHeld(row))
    && (a.point.Finished? && a.point.outcome.SentOutcome? ==> IsSent(row))
  }

  predicate RecordFits(s: State, id: AttemptId) {
    id in s.attempts ==> AttemptOk(s.attempts[id]) && Fits(s.attempts[id], RowOf(s.ledger, s.attempts[id].key))
  }

  ghost predicate RecordsOk(s: State) {
    && (forall k :: k in s.ledger ==> WellFormed(s.ledger[k]))
    && (forall i :: i in s.attempts ==> RecordFits(s, i))
  }

  predicate Apart(s: State, i: AttemptId, j: AttemptId) {
    i in s.attempts && j in s.attempts && i != j && Grips(s.attempts[i]) && Grips(s.attempts[j]) ==>
      s.attempts[i].key != s.attempts[j].key
  }

  ghost predicate DeliveriesOk(s: State) {
    && (forall k :: s.deliveries[k] <= 1)
    && (forall k :: s.deliveries[k] == 1 <==> DeliveredBySomeone(s, k))
    && (forall k :: k in s.ledger && s.ledger[k].status.Sent? ==> DeliveredBySomeone(s, k))
  }

  ghost predicate Inv(s: State) {
    RecordsOk(s) && (forall i, j :: Apart(s, i, j)) && DeliveriesOk(s)
  }

  // ---- every event keeps it ------------------------------------------------------------

  /** One event seen from one attempt and its row: nothing here depends on the other attempts. */
  lemma {:induction false} LocalEventKeepsOk(a: Attempt, row: Option<Row>, e: Event)
    requires AttemptOk(a) && Fits(a, row)
    requires e.Throw? ==> RequestAt(a.point).Some?
    requires e.Resolve? || e.Reject? ==> a.point.AwaitProvider?
    requires e.Stop? ==> !a.point.Finished?
    ensures AttemptOk(Locally(a, e)) && Fits(Locally(a, e), row)
    ensures Grips(Locally(a, e)) == Grips(a)
    ensures !e.Resolve? ==> (Locally(a, e).call.Resolved? <==> a.call.Resolved?)
    ensures Locally(a, e).key == a.key
  {
  }

  lemma {:induction false} AppliedKeepsOk(a: Attempt, row: Option<Row>, op: Operation, now: int, heard: bool)
    requires AttemptOk(a) && Fits(a, row) && op in a.wire
    requires row.Some? ==> WellFormed(row.value)
    requires heard ==> RequestAt(a.point) == Some(op)
    ensures var (row', a') := Applied(row, a, op, now, heard);
      && AttemptOk(a') && Fits(a', row')
      && (row'.Some? ==> WellFormed(row'.value))
      && (row.Some? ==> row'.Some?)
      && a'.key == a.key
      && (a'.call.Resolved? <==> a.call.Resolved?)
      && (IsSent(row) ==> IsSent(row'))
      && (IsSent(row') && !IsSent(row) ==> a.call.Resolved?)
      // only a gripping attempt can let a held row go
      && (IsHeld(row) && !IsHeld(row') ==> Grips(a) && !Grips(a'))
      // and the grip is only ever taken on a row nobody holds
      && (Grips(a') && !Grips(a) ==> !IsHeld(row))
  {
  }

  lemma {:induction false} StepKeepsInv(s: State, e: Event)
    requires Inv(s)
    ensures Inv(Perform(s, e))
  {
    if Possible(s, e) {
      match e
      case Start(id, key) => StartKeepsInv(s, id, key);
      case Apply(id, op, now, heard) => ApplyKeepsInv(s, id, op, now, heard);
      case Resolve(id) => ResolveKeepsInv(s, id);
      case _ => LocalKeepsInv(s, e);
    }
  }

  lemma {:induction false} StartKeepsInv(s: State, id: AttemptId, key: Key)
    requires Inv(s) && id !in s.attempts
    ensures Inv(Perform(s, Start(id, key)))
  {
    var t := Perform(s, Start(id, key));
    forall k ensures DeliveredBySomeone(s, k) <==> DeliveredBySomeone(t, k) {
      SameDeliveries(s, t, id, k);
    }
    forall i, j ensures Apart(t, i, j) { assert Apart(s, i, j); }
  }

  /** Records that differ only in an attempt whose call stays unresolved, or stays resolved. */
  predicate SameResolution(before: map<AttemptId, Attempt>, after: map<AttemptId, Attempt>, id: AttemptId) {
    && id in after && after == before[id := after[id]]
    && (after[id].call.Resolved? <==> id in before && before[id].call.Resolved?)
    && (id in before ==> before[id].key == after[id].key)
  }

  lemma {:induction false} SameDeliveries(s: State, t: State, id: AttemptId, k: Key)
    requires SameResolution(s.attempts, t.attempts, id)
    ensures DeliveredBySomeone(s, k) <==> DeliveredBySomeone(t, k)
  {
    if DeliveredBySomeone(s, k) {
      var j :| j in s.attempts && s.attempts[j].key == k && s.attempts[j].call.Resolved?;
      assert t.attempts[j].key == k && t.attempts[j].call.Resolved?;
    }
    if DeliveredBySomeone(t, k) {
      var j :| j in t.attempts && t.attempts[j].key == k && t.attempts[j].call.Resolved?;
      assert s.attempts[j].key == k && s.attempts[j].call.Resolved?;
    }
  }

  lemma {:induction false} LocalKeepsInv(s: State, e: Event)
    requires Inv(s) && Possible(s, e) && (e.Throw? || e.Reject? || e.Stop?)
    ensures Inv(Perform(s, e))
  {
    var t := Perform(s, e);
    var a := s.attempts[e.id];
    assert RecordFits(s, e.id);
    LocalEventKeepsOk(a, RowOf(s.ledger, a.key), e);
    forall k ensures DeliveredBySomeone(s, k) <==> DeliveredBySomeone(t, k) {
      SameDeliveries(s, t, e.id, k);
    }
    forall i, j ensures Apart(t, i, j) { assert Apart(s, i, j); }
  }

  lemma {:induction false} ResolveKeepsInv(s: State, id: AttemptId)
    requires Inv(s) && Possible(s, Resolve(id))
    ensures Inv(Perform(s, Resolve(id)))
  {
    var t := Perform(s, Resolve(id));
    var a := s.attempts[id];
    assert RecordFits(s, id);
    LocalEventKeepsOk(a, RowOf(s.ledger, a.key), Resolve(id));
    // nobody else can have delivered: two attempts would grip the same row
    forall i, j ensures Apart(t, i, j) { assert Apart(s, i, j); }
    forall j | j in s.attempts && s.attempts[j].key == a.key
      ensures !s.attempts[j].call.Resolved?
    {
      assert Apart(s, id, j);
    }
    assert t.attempts[id].call.Resolved?;
    assert DeliveredBySomeone(t, a.key);
    forall k | k != a.key ensures DeliveredBySomeone(s, k) <==> DeliveredBySomeone(t, k) {
      if DeliveredBySomeone(s, k) {
        var j :| j in s.attempts && s.attempts[j].key == k && s.attempts[j].call.Resolved?;
        assert t.attempts[j].key == k && t.attempts[j].call.Resolved?;
      }
    }
  }

  lemma {:induction false} ApplyKeepsInv(s: State, id: AttemptId, op: Operation, now: int, heard: bool)
    requires Inv(s) && Possible(s, Apply(id, op, now, heard))
    ensures Inv(Perform(s, Apply(id, op, now, heard)))
  {
    AppliedKeepsDeliveries(s, id, op, now, heard);
    AppliedKeepsRecords(s, id, op, now, heard);
    var t := Perform(s, Apply(id, op, now, heard));
    forall i, j ensures Apart(t, i, j) {
      assert Apart(s, i, j);
      if i != j && j in s.attempts && j != id { BystanderKeepsFit(s, id, j, op, now, heard); }
      if i != j && i in s.attempts && i != id { BystanderKeepsFit(s, id, i, op, now, heard); }
    }
  }

  lemma {:induction false} AppliedKeepsRecords(s: State, id: AttemptId, op: Operation, now: int, heard: bool)
    requires Inv(s) && Possible(s, Apply(id, op, now, heard))
    ensures RecordsOk(Perform(s, Apply(id, op, now, heard)))
  {
    var t := Perform(s, Apply(id, op, now, heard));
    var a := s.attempts[id];
    assert RecordFits(s, id);
    AppliedKeepsOk(a, RowOf(s.ledger, a.key), op, now, heard);
    forall i ensures RecordFits(t, i) {
      assert RecordFits(s, i);
      if i in s.attempts && i != id {
        BystanderKeepsFit(s, id, i, op, now, heard);
      }
    }
  }

  lemma {:induction false} AppliedKeepsDeliveries(s: State, id: AttemptId, op: Operation, now: int, heard: bool)
    requires Inv(s) && Possible(s, Apply(id, op, now, heard))
    ensures var t := Perform(s, Apply(id, op, now, heard));
      DeliveriesOk(t)
  {
    var t := Perform(s, Apply(id, op, now, heard));
    var a := s.attempts[id];
    assert RecordFits(s, id);
    AppliedKeepsOk(a, RowOf(s.ledger, a.key), op, now, heard);
    forall k ensures DeliveredBySomeone(s, k) <==> DeliveredBySomeone(t, k) {
      SameDeliveries(s, t, id, k);
    }
    forall k | k in t.ledger && t.ledger[k].status.Sent?
      ensures DeliveredBySomeone(s, k)
    {
      if k == a.key && !IsSent(RowOf(s.ledger, k)) {
        assert a.call.Resolved?;
      }
    }
  }

  /** Applying a request of one attempt leaves every other attempt in agreement with its row. */
  lemma {:induction false} BystanderKeepsFit(
    s: State, id: AttemptId, i: AttemptId, op: Operation, now: int, heard: bool)
    requires Inv(s) && Possible(s, Apply(id, op, now, heard)) && i in s.attempts && i != id
    ensures var t := Perform(s, Apply(id, op, now, heard)); var other := s.attempts[i];
      && t.attempts[i] == other
      && Fits(other, RowOf(t.ledger, other.key))
      && (Grips(other) && Grips(t.attempts[id]) ==> other.key != s.attempts[id].key)
  {
    var a := s.attempts[id];
    var row := RowOf(s.ledger, a.key);
    assert RecordFits(s, id) && RecordFits(s, i) && Apart(s, id, i);
    AppliedKeepsOk(a, row, op, now, heard);
  }

  lemma {:induction false} RunKeepsInv(s: State, events: seq<Event>)
    requires Inv(s)
    ensures Inv(Run(s, events))
    decreases |events|
  {
    if events == [] {
    } else {
      StepKeepsInv(s, events[0]);
      RunKeepsInv(Perform(s, events[0]), events[1..]);
    }
  }

  // ---- whole-run results ----------------------------------------------------------------

  predicate LiveFor(s: State, id: AttemptId, key: Key) {
    id in s.attempts && s.attempts[id].key == key && Live(s.attempts[id])
  }

  /**
   For one idempotency key, `send()` resolves at most once in any run. More strongly, at
   most one attempt can ever have an unrefused call: while one call is in flight (even if
   its attempt has died) or has resolved, no other attempt calls the provider.
   */
  lemma {:induction false} AtMostOneDelivery(events: seq<Event>, key: Key)
    ensures var s := Run(INITIAL, events);
      && s.deliveries[key] <= 1
      && forall i, j :: LiveFor(s, i, key) && LiveFor(s, j, key) ==> i == j
  {
    RunKeepsInv(INITIAL, events);
    var s := Run(INITIAL, events);
    forall i, j | LiveFor(s, i, key) && LiveFor(s, j, key) ensures i == j { assert Apart(s, i, j); }
  }

  // ---- what an attempt hears -------------------------------------------------------------

  predicate HeardGrant(a: Attempt) { (ClaimRequest, Disposed(Granted)) in a.heard }

  predicate HeardAlreadySent(a: Attempt) { (ClaimRequest, Disposed(AlreadySent)) in a.heard }

  /** The ledger answered true to this transition. */
  predicate HeardDone(a: Attempt, to: Transition) { (Request(to), Updated(true)) in a.heard }

  /** The requests of an attempt that has run to its end, by what it has heard and how its call went. */
  function AskedInTheEnd(a: Attempt): set<Operation> {
    {ClaimRequest} + (if HeardGrant(a) then {Request(ToSending)} else {}) +
    match a.call
    case Resolved =>
      if HeardDone(a, ToSent) then {Request(ToSent)} else {Request(ToSent), Request(ToNeedsReconciliation)}
    case Rejected => {Request(ToFailed)}
    case _ => {}
  }

  /** What an attempt has heard and asked, at each point of its code. */
  predicate HeardOk(a: Attempt) {
    && (forall h :: h in a.heard ==> h.0 in a.asked)
    && a.wire <= a.asked
    && !(HeardGrant(a) && HeardAlreadySent(a))
    && (!a.call.NotCalled? ==> HeardGrant(a) && HeardDone(a, ToSending))
    && match a.point
       case AwaitClaim => a.call.NotCalled? && a.heard == {} && a.asked == {ClaimRequest}
       case AwaitSending =>
         a.call.NotCalled? && HeardGrant(a) && !HeardDone(a, ToSending) && a.asked == {ClaimRequest, Request(ToSending)}
       case AwaitProvider => a.call.InFlight? && a.asked == {ClaimRequest, Request(ToSending)}
       case AwaitSent =>
         a.call.Resolved? && !HeardDone(a, ToSent) && a.asked == {ClaimRequest, Request(ToSending), Request(ToSent)}
       case AwaitReconciliation => a.call.Resolved? && !HeardDone(a, ToSent) && a.asked == AskedInTheEnd(a)
       case AwaitFailed => a.call.Rejected? && !HeardDone(a, ToFailed) && a.asked == AskedInTheEnd(a)
       case Finished(outcome) => EndsAs(a, outcome)
       case Stopped => true
  }

  /** The call and the outcome that what was heard amounts to. */
  predicate EndsAs(a: Attempt, outcome: Outcome) {
    && (a.call.NotCalled? <==> !(HeardGrant(a) && HeardDone(a, ToSending)))
    && a.asked == AskedInTheEnd(a)
    && outcome ==
      match a.call
      case Rejected => ProviderFailed(HeardDone(a, ToFailed))
      case Resolved => if HeardDone(a, ToSent) then SentOutcome(true) else Unreconciled
      case _ => if HeardAlreadySent(a) then SentOutcome(false) else FailedOutcome
  }

  lemma LocalEventKeepsHeard(a: Attempt, e: Event)
    requires HeardOk(a)
    requires e.Throw? ==> RequestAt(a.point).Some?
    requires e.Resolve? || e.Reject? ==> a.point.AwaitProvider?
    requires e.Stop? ==> !a.point.Finished?
    ensures HeardOk(Locally(a, e))
  {
  }

  lemma AppliedKeepsHeard(a: Attempt, row: Option<Row>, op: Operation, now: int, heard: bool)
    requires HeardOk(a) && op in a.wire && (heard ==> RequestAt(a.point) == Some(op))
    ensures HeardOk(Applied(row, a, op, now, heard).1)
  {
    hide Claim, Move;
  }

  ghost predicate AllHeardOk(s: State) { forall id :: id in s.attempts ==> HeardOk(s.attempts[id]) }

  lemma StepKeepsHeard(s: State, e: Event)
    requires AllHeardOk(s)
    ensures AllHeardOk(Perform(s, e))
  {
    hide HeardOk, Applied, Locally;
    if Possible(s, e) {
      match e
      case Start(id, key) =>
        assert HeardOk(NewAttempt(key)) by { NewIsOk(key); }
      case Apply(id, op, now, heard) =>
        AppliedKeepsHeard(s.attempts[id], RowOf(s.ledger, s.attempts[id].key), op, now, heard);
      case _ => LocalEventKeepsHeard(s.attempts[e.id], e);
    }
  }

  lemma NewIsOk(key: Key)
    ensures HeardOk(NewAttempt(key))
  {
  }

  lemma {:induction false} RunKeepsHeard(s: State, events: seq<Event>)
    requires AllHeardOk(s)
    ensures AllHeardOk(Run(s, events))
    decreases |events|
  {
    hide AllHeardOk, Perform;
    if events == [] {
    } else {
      StepKeepsHeard(s, events[0]);
      RunKeepsHeard(Perform(s, events[0]), events[1..]);
    }
  }

  /**
   An attempt has called `send()` only after a granted claim and a `sending` transition
   that returned true; once its call resolved it never asks for `failed`, and it asks for
   `sent` or `needs_reconciliation` only then.
   */
  lemma {:induction false} AttemptDiscipline(events: seq<Event>, id: AttemptId)
    requires id in Run(INITIAL, events).attempts
    ensures var a := Run(INITIAL, events).attempts[id];
      && (!a.call.NotCalled? ==> HeardGrant(a) && HeardDone(a, ToSending))
      && (a.call.Resolved? ==> Request(ToFailed) !in a.asked)
      && (Request(ToSent) in a.asked || Request(ToNeedsReconciliation) in a.asked ==> a.call.Resolved?)
  {
    RunKeepsInv(INITIAL, events);
    RunKeepsHeard(INITIAL, events);
  }

  /**
   What an outcome returned to the campaign means: `sent` exactly when the ledger row is
   sent and some call for the key resolved; `needs_reconciliation` only after this
   attempt's own call resolved; the two failures only when it did not.
   */
  lemma {:induction false} OutcomesAreTruthful(events: seq<Event>, id: AttemptId)
    requires id in Run(INITIAL, events).attempts && Run(INITIAL, events).attempts[id].point.Finished?
    ensures var s := Run(INITIAL, events); var a := s.attempts[id];
      match a.point.outcome
      case SentOutcome(called) => IsSent(RowOf(s.ledger, a.key)) && s.deliveries[a.key] == 1 &&
        (called <==> a.call.Resolved?)
      case Unreconciled => a.call.Resolved? && s.deliveries[a.key] == 1
      case ProviderFailed(_) => a.call.Rejected?
      case FailedOutcome => a.call.NotCalled?
  {
    var s := Run(INITIAL, events);
    RunKeepsInv(INITIAL, events);
    assert Fits(s.attempts[id], RowOf(s.ledger, s.attempts[id].key));
    if s.attempts[id].call.Resolved? {
      assert DeliveredBySomeone(s, s.attempts[id].key);
    }
  }

  /**
   And the other way round: the answers an attempt heard and the fate of its call decide its outcome,
   and what it has asked of the ledger by then. It calls `send()` exactly on a granted claim and a true
   answer to `sending`; a true answer to `sent` makes the outcome `sent`, with the provider called.
   */
  lemma {:induction false} OutcomesAreExact(events: seq<Event>, id: AttemptId)
    requires id in Run(INITIAL, events).attempts && Run(INITIAL, events).attempts[id].point.Finished?
    ensures var a := Run(INITIAL, events).attempts[id]; EndsAs(a, a.point.outcome)
  {
    RunKeepsHeard(INITIAL, events);
  }

  lemma {:induction false} RunAppend(s: State, first: seq<Event>, rest: seq<Event>)
    ensures Run(s, first + rest) == Run(Run(s, first), rest)
    decreases |first|
  {
    if first == [] {
      assert first + rest == rest;
    } else {
      assert (first + rest)[0] == first[0] && (first + rest)[1..] == first[1..] + rest;
      RunAppend(Perform(s, first[0]), first[1..], rest);
    }
  }

  /** Once a key is delivered, nothing that happens later adds a delivery or frees its row. */
  lemma {:induction false} DeliveryIsFinal(events: seq<Event>, more: seq<Event>, key: Key)
    requires Run(INITIAL, events).deliveries[key] == 1
    ensures var t := Run(INITIAL, events + more); t.deliveries[key] == 1 && IsHeld(RowOf(t.ledger, key))
  {
    RunKeepsInv(INITIAL, events);
    RunAppend(INITIAL, events, more);
    RunKeepsInv(Run(INITIAL, events), more);
    DeliveriesOnlyGrow(Run(INITIAL, events), more, key);
    var t := Run(INITIAL, events + more);
    var id :| id in t.attempts && t.attempts[id].key == key && t.attempts[id].call.Resolved?;
    assert RecordFits(t, id);
  }

  lemma {:induction false} DeliveriesOnlyGrow(s: State, events: seq<Event>, key: Key)
    ensures Run(s, events).deliveries[key] >= s.deliveries[key]
    decreases |events|
  {
    if events == [] {
    } else {
      DeliveriesOnlyGrow(Perform(s, events[0]), events[1..], key);
    }
  }

  // ---- the attempt's own code -----------------------------------------------------------

  /** How an await ends: with the database's answer at some time, by an exception, or never. */
  datatype Fate = Answered(now: int) | Throws | Dies

  /** What happens while an attempt waits: other events first, then its own await settles. */
  datatype Wait = Wait(others: seq<Event>, fate: Fate)

  /** Others may do anything; of this attempt only its unheard requests may be applied meanwhile. */
  predicate Foreign(e: Event, id: AttemptId) { e.id != id || (e.Apply? && !e.heard) }

  predicate LegalWait(wait: Wait, id: AttemptId) { forall e :: e in wait.others ==> Foreign(e, id) }

  lemma {:induction false} ForeignEventsKeepAttempt(s: State, events: seq<Event>, id: AttemptId)
    requires id in s.attempts && forall e :: e in events ==> Foreign(e, id)
    ensures var t := Run(s, events);
      id in t.attempts && t.attempts[id] == s.attempts[id].(wire := t.attempts[id].wire)
    decreases |events|
  {
    if events == [] {
    } else {
      assert Foreign(events[0], id);
      var t := Perform(s, events[0]);
      assert id in t.attempts && t.attempts[id] == s.attempts[id].(wire := t.attempts[id].wire);
      ForeignEventsKeepAttempt(Perform(s, events[0]), events[1..], id);
    }
  }

  datatype Reply = Heard(answer: Answer) | Threw | Died

  /** An attempt's next request is on its way. */
  predicate Asking(a: Attempt) { RequestAt(a.point).Some? ==> RequestAt(a.point).value in a.wire }

  /** Nothing happens during the wait, and it ends well. */
  predicate Smooth(wait: Wait) { wait.others == [] && wait.fate.Answered? }

  ghost predicate AllSmooth(waits: nat -> Wait) { forall n :: 0 <= n <= 4 ==> Smooth(waits(n)) }

  /** A claim of the key would be granted: it is new, has failed, or was claimed and not touched for 300 seconds. */
  predicate Claimable(row: Option<Row>, now: int) {
    row.None? || (row.value.status.Failed? && row.value.provider.Refused?) ||
    (row.value.status.Pending? && row.value.provider.Claimed? && now - row.value.updatedAt >= 300)
  }

  predicate IsMarked(row: Option<Row>) { row.Some? && row.value.status.Pending? && row.value.provider.Sending? }

  /** Where an answer takes the attempt that hears it. */
  lemma AnswerMoves(s: State, id: AttemptId, op: Operation, now: int)
    requires Possible(s, Apply(id, op, now, true))
    ensures var a := s.attempts[id]; var t := Perform(s, Apply(id, op, now, true));
      var (row, answer) := ApplyToRow(RowOf(s.ledger, a.key), op, now);
      && id in t.attempts && t.attempts[id].key == a.key && t.attempts[id].point == AfterAnswer(a.point, answer)
      && (answer.Disposed? <==> a.point.AwaitClaim?) && RowOf(t.ledger, a.key) == row
      && Asking(t.attempts[id])
  {
  }

  /** Where a throw or the end of the process takes an attempt that awaits the ledger. */
  lemma EndingMoves(s: State, id: AttemptId)
    requires id in s.attempts && RequestAt(s.attempts[id].point).Some?
    ensures var a := s.attempts[id]; var thrown := Perform(s, Throw(id)); var stopped := Perform(s, Stop(id));
      && id in thrown.attempts && thrown.attempts[id].key == a.key && thrown.attempts[id].point == AfterThrow(a.point)
      && id in stopped.attempts && stopped.attempts[id].key == a.key && stopped.attempts[id].point == Stopped
      && Asking(thrown.attempts[id])
  {
  }

  /** The shared world of all attempts, with the list of events that produced it. */
  class World {
    var state: State
    ghost var trace: seq<Event>

    constructor ()
      ensures state == INITIAL && trace == []
    {
      state, trace := INITIAL, [];
    }

    ghost predicate Valid()
      reads this
    {
      state == Run(INITIAL, trace)
    }

    method Do(e: Event)
      requires Valid()
      modifies this
      ensures Valid() && state == Perform(old(state), e) && trace == old(trace) + [e]
    {
      RunAppend(INITIAL, trace, [e]);
      assert Run(state, [e]) == Run(Perform(state, e), []);
      state, trace := Perform(state, e), trace + [e];
    }

    /** The others run while attempt `id` is suspended. */
    method Interfere(id: AttemptId, events: seq<Event>)
      requires Valid() && id in state.attempts && forall e :: e in events ==> Foreign(e, id)
      modifies this
      ensures Valid() && state == Run(old(state), events)
      ensures id in state.attempts
      ensures state.attempts[id] == old(state).attempts[id].(wire := state.attempts[id].wire)
    {
      ForeignEventsKeepAttempt(state, events, id);
      RunAppend(INITIAL, trace, events);
      state, trace := Run(state, events), trace + events;
    }

    /** Awaiting a ledger request; an answer that the database has already given unheard is lost. */
    method AwaitLedger(id: AttemptId, wait: Wait) returns (reply: Reply)
      requires Valid() && LegalWait(wait, id)
      requires id in state.attempts && RequestAt(state.attempts[id].point).Some?
      modifies this
      ensures Valid() && id in state.attempts && state.attempts[id].key == old(state).attempts[id].key
      ensures var before := old(state).attempts[id].point; var after := state.attempts[id].point;
        match reply
        case Heard(answer) => after == AfterAnswer(before, answer) && (answer.Disposed? <==> before.AwaitClaim?)
        case Threw => after == AfterThrow(before)
        case Died => after == Stopped
      ensures Asking(state.attempts[id]) && (reply.Died? <==> wait.fate.Dies?)
      ensures var a := old(state).attempts[id];
        Smooth(wait) && Asking(a) ==>
          var (row, answer) := ApplyToRow(RowOf(old(state).ledger, a.key), RequestAt(a.point).value, wait.fate.now);
          reply == Heard(answer) && RowOf(state.ledger, a.key) == row
    {
      Interfere(id, wait.others);
      var attempt := state.attempts[id];
      var op := RequestAt(attempt.point).value;
      hide Perform, AfterThrow, RequestAt, RowOf, Run, LegalWait;
      match wait.fate
      case Answered(now) =>
        if op in attempt.wire {
          AnswerMoves(state, id, op, now);
          hide ApplyToRow, AfterAnswer;
          var answer := ApplyToRow(RowOf(state.ledger, attempt.key), op, now).1;
          Do(Apply(id, op, now, true));
          reply := Heard(answer);
        } else {
          EndingMoves(state, id);
          Do(Throw(id));
          reply := Threw;
        }
      case Throws =>
        EndingMoves(state, id);
        Do(Throw(id));
        reply := Threw;
      case Dies =>
        EndingMoves(state, id);
        Do(Stop(id));
        reply := Died;
    }

    /** Awaiting `send()`: true when it resolves, false when it rejects. */
    method AwaitSend(id: AttemptId, wait: Wait) returns (result: Option<bool>)
      requires Valid() && LegalWait(wait, id)
      requires id in state.attempts && state.attempts[id].point.AwaitProvider?
      modifies this
      ensures Valid() && id in state.attempts && state.attempts[id].key == old(state).attempts[id].key
      ensures state.attempts[id].point ==
        if result == Some(true) then AwaitSent else if result == Some(false) then AwaitFailed else Stopped
      ensures Asking(state.attempts[id])
      ensures match wait.fate
        case Answered(_) => result == Some(true)
        case Throws => result == Some(false)
        case Dies => result == None
      ensures wait.others == [] ==> state.ledger == old(state).ledger
    {
      Interfere(id, wait.others);
      match wait.fate
      case Answered(_) => Do(Resolve(id)); result := Some(true);
      case Throws => Do(Reject(id)); result := Some(false);
      case Dies => Do(Stop(id)); result := None;
    }

    /** `finalizeSuccessfulPushDelivery`; `None` when the process dies on the way. */
    method FinalizeSuccessfulPushDelivery(id: AttemptId, waits: nat -> Wait) returns (outcome: Option<Outcome>)
      requires Valid() && (forall n :: LegalWait(waits(n), id))
      requires id in state.attempts && state.attempts[id].point.AwaitSent?
      modifies this
      ensures Valid() && id in state.attempts && state.attempts[id].key == old(state).attempts[id].key
      ensures state.attempts[id].point == if outcome.Some? then Finished(outcome.value) else Stopped
      ensures outcome.None? <==> waits(3).fate.Dies? || (outcome != Some(SentOutcome(true)) && waits(4).fate.Dies?)
      ensures var a := old(state).attempts[id];
        Smooth(waits(3)) && Asking(a) && IsMarked(RowOf(old(state).ledger, a.key)) ==>
          outcome == Some(SentOutcome(true))
    {
      var reply := AwaitLedger(id, waits(3));
      match reply {
        case Heard(answer) =>
          if answer.ok {
            return Some(SentOutcome(true));
          }
        case Threw =>
        case Died =>
          return None;
      }
      reply := AwaitLedger(id, waits(4));
      outcome := if reply.Died? then None else Some(Unreconciled);
    }

    /**
     `runPushDeliveryAttempt`, statement by statement: whatever happens at its awaits, the
     outcome it returns is the one the protocol's attempt has finished with, decided by the answers it has
     heard; it returns none only when the process dies. With nobody else at work and every await ending well, a
     key that can be claimed is delivered and reported as sent.
     */
    method RunPushDeliveryAttempt(id: AttemptId, key: Key, waits: nat -> Wait) returns (outcome: Option<Outcome>)
      requires Valid() && (forall n :: LegalWait(waits(n), id))
      requires id !in state.attempts
      modifies this
      ensures Valid() && id in state.attempts && state.attempts[id].key == key
      ensures state.attempts[id].point == if outcome.Some? then Finished(outcome.value) else Stopped
      ensures outcome.Some? && outcome.value.SentOutcome? ==>
        IsSent(RowOf(state.ledger, key)) && state.deliveries[key] == 1
      ensures outcome.Some? ==> EndsAs(state.attempts[id], outcome.value)
      ensures outcome.None? ==> exists n :: 0 <= n <= 4 && waits(n).fate.Dies?
      ensures AllSmooth(waits) && Claimable(RowOf(old(state).ledger, key), waits(0).fate.now) ==>
        outcome == Some(SentOutcome(true))
    {
      Do(Start(id, key));
      outcome := Attempted(id, waits);
      if outcome.Some? {
        OutcomesAreTruthful(trace, id);
        OutcomesAreExact(trace, id);
      }
    }

    method Attempted(id: AttemptId, waits: nat -> Wait) returns (outcome: Option<Outcome>)
      requires Valid() && (forall n :: LegalWait(waits(n), id))
      requires id in state.attempts && state.attempts[id].point.AwaitClaim?
      modifies this
      ensures Valid() && id in state.attempts && state.attempts[id].key == old(state).attempts[id].key
      ensures state.attempts[id].point == if outcome.Some? then Finished(outcome.value) else Stopped
      ensures outcome.None? ==> exists n :: 0 <= n <= 4 && waits(n).fate.Dies?
      ensures var a := old(state).attempts[id];
        AllSmooth(waits) && Asking(a) && Claimable(RowOf(old(state).ledger, a.key), waits(0).fate.now) ==>
          outcome == Some(SentOutcome(true))
    {
      var claim := AwaitLedger(id, waits(0));
      match claim {
        case Threw => return Some(FailedOutcome);
        case Died => return None;
        case Heard(Disposed(AlreadySent)) => return Some(SentOutcome(false));
        case Heard(Disposed(AwaitsReconciliation)) => return Some(FailedOutcome);
        case Heard(Disposed(InProgress)) => return Some(FailedOutcome);
        case Heard(Disposed(Granted)) =>
      }
      var lease := AwaitLedger(id, waits(1));
      match lease {
        case Threw => return Some(FailedOutcome);
        case Died => return None;
        case Heard(Updated(markedSending)) =>
          if !markedSending {
            return Some(FailedOutcome);
          }
      }
      var resolved := AwaitSend(id, waits(2));
      match resolved {
        case None => return None;
        case Some(true) =>
          outcome := FinalizeSuccessfulPushDelivery(id, waits);
        case Some(false) =>
          var refusal := AwaitLedger(id, waits(3));
          match refusal {
            case Heard(Updated(markedFailed)) => return Some(ProviderFailed(markedFailed));
            case Threw => return Some(ProviderFailed(false));
            case Died => return None;
          }
      }
    }
  }
}
