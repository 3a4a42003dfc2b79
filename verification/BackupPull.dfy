/**
 The backup puller `scripts/self-host-operations/pve-backup-pull.py`.

 Every change of the disk and every message to the source is one effect. The process may
 be killed before any of them: `budget` is the number of effects it still lives for, and
 all contracts hold for every budget. A Python exception is `Raised`; a check of the script
 that can only raise stops it where a kill could stop it too. The lock file keeps a second
 puller out, so one run has the directory to itself.
 */
module BackupPull {
  import opened Wrappers
  import StableSort
  import opened Permutations

  type Bytes = seq<bv8>

  /** A validated receipt; `version` and `continuousPitr` have one legal value each. `createdAt` is in milliseconds. */
  datatype Receipt = Receipt(
    id: string, sha256: string, recipient: string, bytes: int, createdAt: int, databaseSystemId: string)

  /** A JSON value presented as a receipt: of the wrong shape, or with all fields well-formed. */
  datatype Presented = Malformed | WellFormed(receipt: Receipt)

  const MIN_BYTES: int := 1024
  const MAX_BYTES: int := 20 * 1024 * 1024 * 1024
  const SPARE_BYTES: int := 4 * 1024 * 1024 * 1024
  const CLOCK_SKEW_MS: int := 300_000
  const HEALTHY_MS: int := 8 * 3600 * 1000
  const MAX_LISTED: int := 32

  /** `validate_receipt`. */
  function ValidateReceipt(v: Presented, now: int): Option<Receipt> {
    if v.Malformed? || !(MIN_BYTES <= v.receipt.bytes <= MAX_BYTES) || v.receipt.createdAt > now + CLOCK_SKEW_MS
    then None else Some(v.receipt)
  }

  /** From 1 KiB to 20 GiB, and no more than five minutes ahead of the clock; age does not matter. */
  predicate Acceptable(v: Presented, now: int) {
    v.WellFormed? && 1024 <= v.receipt.bytes <= 21_474_836_480 && v.receipt.createdAt <= now + 300_000
  }

  lemma ValidatesExactlyAcceptable(v: Presented, now: int)
    ensures ValidateReceipt(v, now) == if Acceptable(v, now) then Some(v.receipt) else None
  {
  }

  /** One `production/<id>` directory, with its temporary files (the newest last). */
  datatype Directory = Directory(snapshot: Option<Bytes>, receipt: Option<Receipt>,
                                 partials: seq<Bytes>, states: seq<Option<Receipt>>)

  /** The directory's receipt does not pass validation (any more). */
  predicate HoldsInvalidReceipt(d: Directory, now: int) {
    d.receipt.Some? && !Acceptable(WellFormed(d.receipt.value), now)
  }

  datatype Status = Status(healthy: bool, available: nat, latestId: string, acknowledged: bool)

  datatype Ack = Ack(id: string, sha256: string)

  datatype Exit = Done | Raised | Killed

  /** Everything one run meets: the source's answers, free space, clock and failing writes. */
  datatype Surroundings = Surroundings(
    listing: Option<seq<Presented>>,
    stream: string -> seq<Bytes>,
    streamEndsWell: string -> bool,
    free: string -> int,
    writeFails: string -> bool,
    now: int,
    acknowledges: bool)

  // ---- what the disk must look like --------------------------------------------------------

  predicate Matches(content: Bytes, r: Receipt, digest: Bytes -> string) {
    |content| == r.bytes && digest(content) == r.sha256
  }

  predicate StoredAndVerified(dirs: map<string, Directory>, r: Receipt, digest: Bytes -> string) {
    && r.id in dirs
    && dirs[r.id].receipt == Some(r)
    && dirs[r.id].snapshot.Some? && Matches(dirs[r.id].snapshot.value, r, digest)
  }

  /** A snapshot matches the receipt it was promoted under; a stored receipt has its snapshot beside it. */
  predicate DirectoryGood(id: string, d: Directory, promoted: map<string, Receipt>, digest: Bytes -> string) {
    && (d.snapshot.Some? ==> id in promoted && promoted[id].id == id && Matches(d.snapshot.value, promoted[id], digest))
    && (d.receipt.Some? ==>
      d.snapshot.Some? && d.receipt.value.id == id && Matches(d.snapshot.value, d.receipt.value, digest))
  }

  /** No stored snapshot or receipt is changed or removed. */
  predicate Preserved(before: map<string, Directory>, after: map<string, Directory>) {
    forall id :: id in before ==>
      && id in after
      && (before[id].snapshot.Some? ==> after[id].snapshot == before[id].snapshot)
      && (before[id].receipt.Some? ==> after[id].receipt == before[id].receipt)
  }

  predicate AckHonoured(dirs: map<string, Directory>, a: Ack, digest: Bytes -> string) {
    && a.id in dirs
    && dirs[a.id].receipt.Some?
    && dirs[a.id].receipt.value.sha256 == a.sha256
    && StoredAndVerified(dirs, dirs[a.id].receipt.value, digest)
  }

  lemma PreservedKeepsStored(
    before: map<string, Directory>, after: map<string, Directory>, r: Receipt, digest: Bytes -> string)
    requires Preserved(before, after) && StoredAndVerified(before, r, digest)
    ensures StoredAndVerified(after, r, digest)
  {
  }

  lemma {:induction false} PreservedKeepsAck(
    before: map<string, Directory>, after: map<string, Directory>, a: Ack, digest: Bytes -> string)
    requires Preserved(before, after) && AckHonoured(before, a, digest)
    ensures AckHonoured(after, a, digest)
  {
  }

  // ---- sorting by creation time ---------------------------------------------------------------

  predicate ByDate(s: seq<Receipt>) {
    forall i, j :: 0 <= i < j < |s| ==> s[i].createdAt <= s[j].createdAt
  }

  function CreatedAt(r: Receipt): int { r.createdAt }

  function SortByDate(s: seq<Receipt>): (t: seq<Receipt>)
    ensures ByDate(t) && multiset(t) == multiset(s)
  {
    StableSort.SortedIsOrdered(s, CreatedAt);
    StableSort.SortedKeeps(s, CreatedAt);
    StableSort.Sorted(s, CreatedAt)
  }

  predicate DistinctIds(s: seq<Receipt>) {
    forall i, j :: 0 <= i < j < |s| ==> s[i].id != s[j].id
  }

  lemma {:induction false} ReorderingKeepsDistinctIds(s: seq<Receipt>, t: seq<Receipt>)
    requires multiset(s) == multiset(t) && DistinctIds(s)
    ensures DistinctIds(t)
  {
    forall i, j | 0 <= i < j < |t| ensures t[i].id != t[j].id {
      if t[i] == t[j] {
        DuplicateCounts(t, i, j);
        DistinctCounts(s, t[i]);
      } else {
        assert t[i] in multiset(s) && t[j] in multiset(s);
      }
    }
  }

  predicate NewestListed(s: Surroundings, latest: Receipt) {
    && s.listing.Some? && WellFormed(latest) in s.listing.value
    && forall i :: 0 <= i < |s.listing.value| && s.listing.value[i].WellFormed? ==>
         s.listing.value[i].receipt.createdAt <= latest.createdAt
  }

  /** The newest listed receipt, less than eight hours old: what an acknowledgement is for. */
  predicate Acknowledged(s: Surroundings, latest: Receipt) {
    NewestListed(s, latest) && s.now - latest.createdAt < 28_800_000
  }

  predicate AllStored(s: Surroundings, dirs: map<string, Directory>, digest: Bytes -> string) {
    && s.listing.Some?
    && forall i :: 0 <= i < |s.listing.value| ==>
         s.listing.value[i].WellFormed? && StoredAndVerified(dirs, s.listing.value[i].receipt, digest)
  }

  // ---- surroundings in which nothing stands in the way ------------------------------------------

  function Concat(blocks: seq<Bytes>): Bytes {
    if blocks == [] then [] else Concat(blocks[..|blocks| - 1]) + blocks[|blocks| - 1]
  }

  lemma {:induction false} PrefixIsShorter(blocks: seq<Bytes>, i: nat)
    requires i <= |blocks|
    ensures |Concat(blocks[..i])| <= |Concat(blocks)|
  {
    if i < |blocks| {
      assert blocks[..|blocks| - 1][..i] == blocks[..i];
      PrefixIsShorter(blocks[..|blocks| - 1], i);
    } else {
      assert blocks[..i] == blocks;
    }
  }

  /** The source delivers what the receipt announces and there is room for it. */
  predicate Downloads(v: Receipt, s: Surroundings, digest: Bytes -> string) {
    s.free(v.id) >= v.bytes + 4_294_967_296 && s.streamEndsWell(v.id) && Matches(Concat(s.stream(v.id)), v, digest)
  }

  /** What is already on disk agrees with the listed receipt, and what is missing can be had. */
  predicate Pullable(v: Receipt, d: Directory, s: Surroundings, digest: Bytes -> string) {
    && (if d.snapshot.Some? then Matches(d.snapshot.value, v, digest) else Downloads(v, s, digest))
    && (if d.receipt.Some? then d.receipt == Some(v) else !s.writeFails(v.id))
  }

  const EMPTY: Directory := Directory(None, None, [], [])

  function DirectoryOf(dirs: map<string, Directory>, id: string): Directory {
    if id in dirs then dirs[id] else EMPTY
  }

  /** How many directories hold a receipt. */
  function StoredReceipts(dirs: map<string, Directory>): nat { |set id | id in dirs && dirs[id].receipt.Some?| }

  /** Other directories are not touched. */
  ghost predicate OnlyChanges(before: map<string, Directory>, after: map<string, Directory>, id: string) {
    forall other :: other != id ==> DirectoryOf(after, other) == DirectoryOf(before, other)
  }

  /** Some listed snapshot is less than eight hours old. */
  predicate SomeFresh(s: Surroundings) {
    s.listing.Some? && exists v :: v in s.listing.value && v.WellFormed? && s.now - v.receipt.createdAt < 28_800_000
  }

  predicate ValidListing(s: Surroundings) {
    && s.listing.Some? && 1 <= |s.listing.value| <= 32
    && (forall i :: 0 <= i < |s.listing.value| ==> Acceptable(s.listing.value[i], s.now))
    && (forall i, j :: 0 <= i < j < |s.listing.value| ==>
      s.listing.value[i].receipt.id != s.listing.value[j].receipt.id)
  }

  /** A valid listing that the source and the disk can serve, fresh, and stored receipts that are still valid. */
  predicate Cooperative(s: Surroundings, dirs: map<string, Directory>, digest: Bytes -> string) {
    && ValidListing(s)
    && (forall i :: 0 <= i < |s.listing.value| ==>
          Pullable(s.listing.value[i].receipt, DirectoryOf(dirs, s.listing.value[i].receipt.id), s, digest))
    && SomeFresh(s)
    && (forall id :: id in dirs ==> !HoldsInvalidReceipt(dirs[id], s.now))
    && s.acknowledges
  }

  predicate Refused(v: Receipt, dirs: map<string, Directory>, s: Surroundings, digest: Bytes -> string) {
    !Pullable(v, DirectoryOf(dirs, v.id), s, digest) || !Acceptable(WellFormed(v), s.now)
  }

  /** Effects that pull `n` receipts from streams of at most `blocks` blocks. */
  function Effects(n: nat, blocks: nat): nat { if n == 0 then 0 else Effects(n - 1, blocks) + 6 + blocks }

  lemma {:induction false} EffectsGrow(m: nat, n: nat, blocks: nat)
    requires m <= n
    ensures Effects(m, blocks) <= Effects(n, blocks)
  {
    if m < n {
      EffectsGrow(m, n - 1, blocks);
    }
  }

  /** The number of blocks of the longest stream among those of the listed receipts. */
  function Longest(listed: seq<Presented>, stream: string -> seq<Bytes>): (m: nat)
    ensures forall v :: v in listed && v.WellFormed? ==> |stream(v.receipt.id)| <= m
  {
    if listed == [] then 0
    else
      var front, last := Longest(listed[..|listed| - 1], stream), listed[|listed| - 1];
      if last.WellFormed? && |stream(last.receipt.id)| > front then |stream(last.receipt.id)| else front
  }

  /** Effects that a whole run may take: those of every listed receipt, the acknowledgement and the status. */
  function EffectsOfRun(s: Surroundings): nat {
    if s.listing.None? then 0 else Effects(|s.listing.value|, Longest(s.listing.value, s.stream)) + 2
  }

  lemma RefusalExcludesCooperation(
    s: Surroundings, receipts: seq<Receipt>, dirs: map<string, Directory>, digest: Bytes -> string)
    requires s.listing.Some? && forall r :: r in receipts ==> WellFormed(r) in s.listing.value
    requires forall r :: r in receipts ==> Acceptable(WellFormed(r), s.now)
    ensures (exists k :: 0 <= k < |receipts| && Refused(receipts[k], dirs, s, digest)) ==> !Cooperative(s, dirs, digest)
  {
    if k :| 0 <= k < |receipts| && Refused(receipts[k], dirs, s, digest) {
      assert receipts[k] in receipts;
      var i :| 0 <= i < |s.listing.value| && s.listing.value[i] == WellFormed(receipts[k]);
    }
  }

  lemma ListingPullable(
    s: Surroundings, receipts: seq<Receipt>, dirs: map<string, Directory>, digest: Bytes -> string)
    requires ValidListing(s) && forall r :: r in receipts <==> WellFormed(r) in s.listing.value
    requires forall k :: 0 <= k < |receipts| ==> Pullable(receipts[k], DirectoryOf(dirs, receipts[k].id), s, digest)
    ensures forall i :: 0 <= i < |s.listing.value| ==>
      Pullable(s.listing.value[i].receipt, DirectoryOf(dirs, s.listing.value[i].receipt.id), s, digest)
  {
    forall i | 0 <= i < |s.listing.value|
      ensures Pullable(s.listing.value[i].receipt, DirectoryOf(dirs, s.listing.value[i].receipt.id), s, digest)
    {
      var r := s.listing.value[i].receipt;
      assert WellFormed(r) in s.listing.value && r in receipts;
    }
  }

  lemma ListingStored(s: Surroundings, receipts: seq<Receipt>, dirs: map<string, Directory>, digest: Bytes -> string)
    requires s.listing.Some? && (forall v :: v in s.listing.value ==> v.WellFormed?)
    requires forall r :: r in receipts <==> WellFormed(r) in s.listing.value
    requires forall k :: 0 <= k < |receipts| ==> StoredAndVerified(dirs, receipts[k], digest)
    ensures AllStored(s, dirs, digest)
  {
    forall i | 0 <= i < |s.listing.value|
      ensures s.listing.value[i].WellFormed? && StoredAndVerified(dirs, s.listing.value[i].receipt, digest)
    {
      assert s.listing.value[i] in s.listing.value;
      assert s.listing.value[i].receipt in receipts;
    }
  }

  // ---- what the pull loop leaves alone --------------------------------------------------------

  /** Directories other than those of the first `n` receipts are as before. */
  ghost predicate Untouched(
    before: map<string, Directory>, after: map<string, Directory>, receipts: seq<Receipt>, n: nat)
    requires n <= |receipts|
  {
    forall id :: (forall k :: 0 <= k < n ==> receipts[k].id != id) ==> DirectoryOf(after, id) == DirectoryOf(before, id)
  }

  /** A stored receipt is a listed one or was there before. */
  predicate ReceiptsKnown(before: map<string, Directory>, after: map<string, Directory>, receipts: seq<Receipt>) {
    forall id :: id in after && after[id].receipt.Some? ==>
      after[id].receipt.value in receipts || DirectoryOf(before, id).receipt == after[id].receipt
  }

  lemma PreservedByNothing(dirs: map<string, Directory>, receipts: seq<Receipt>)
    ensures Preserved(dirs, dirs) && Untouched(dirs, dirs, receipts, 0)
  {
  }

  lemma PreservedOnward(a: map<string, Directory>, b: map<string, Directory>, c: map<string, Directory>)
    requires Preserved(a, b) && Preserved(b, c)
    ensures Preserved(a, c)
  {
  }

  lemma OnlyThisChanges(before: map<string, Directory>, after: map<string, Directory>, id: string)
    requires id in before && (after == before || (id in after && after == before[id := after[id]]))
    ensures OnlyChanges(before, after, id)
  {
  }

  lemma ChangesOnward(
    a: map<string, Directory>, b: map<string, Directory>, c: map<string, Directory>, id: string)
    requires Preserved(a, b) && Preserved(b, c) && OnlyChanges(a, b, id) && OnlyChanges(b, c, id)
    ensures Preserved(a, c) && OnlyChanges(a, c, id)
  {
    PreservedOnward(a, b, c);
    hide Preserved, DirectoryOf;
  }

  /** Before its turn, the directory of a receipt is still as it was in the beginning. */
  lemma UntouchedSoFar(
    before: map<string, Directory>, now: map<string, Directory>, receipts: seq<Receipt>, n: nat, s: Surroundings,
    digest: Bytes -> string)
    requires n < |receipts| && DistinctIds(receipts) && Untouched(before, now, receipts, n)
    ensures DirectoryOf(now, receipts[n].id) == DirectoryOf(before, receipts[n].id)
    ensures Refused(receipts[n], now, s, digest) <==> Refused(receipts[n], before, s, digest)
  {
  }

  lemma UntouchedOneMore(
    before: map<string, Directory>, now: map<string, Directory>, after: map<string, Directory>,
    receipts: seq<Receipt>, n: nat)
    requires n < |receipts| && Untouched(before, now, receipts, n) && OnlyChanges(now, after, receipts[n].id)
    ensures Untouched(before, after, receipts, n + 1)
  {
    hide DirectoryOf;
  }

  lemma AllReceiptsKnown(
    before: map<string, Directory>, after: map<string, Directory>, receipts: seq<Receipt>, digest: Bytes -> string)
    requires Untouched(before, after, receipts, |receipts|)
    requires forall k :: 0 <= k < |receipts| ==> StoredAndVerified(after, receipts[k], digest)
    ensures ReceiptsKnown(before, after, receipts)
  {
    forall id | id in after && after[id].receipt.Some?
      ensures after[id].receipt.value in receipts || DirectoryOf(before, id).receipt == after[id].receipt
    {
      if k :| 0 <= k < |receipts| && receipts[k].id == id {
        assert StoredAndVerified(after, receipts[k], digest);
      } else {
        assert DirectoryOf(after, id) == DirectoryOf(before, id);
      }
    }
  }

  /** A stored receipt that has become invalid was there before the run. */
  lemma InvalidExcludesCooperation(
    s: Surroundings, receipts: seq<Receipt>, before: map<string, Directory>, after: map<string, Directory>,
    digest: Bytes -> string)
    requires ReceiptsKnown(before, after, receipts) && forall r :: r in receipts ==> Acceptable(WellFormed(r), s.now)
    requires exists id :: id in after && HoldsInvalidReceipt(after[id], s.now)
    ensures !Cooperative(s, before, digest)
  {
    var id :| id in after && HoldsInvalidReceipt(after[id], s.now);
    assert after[id].receipt.value !in receipts;
    assert id in before && HoldsInvalidReceipt(before[id], s.now);
  }

  lemma FinishingMeansCooperation(
    s: Surroundings, receipts: seq<Receipt>, before: map<string, Directory>, after: map<string, Directory>,
    digest: Bytes -> string)
    requires ValidListing(s) && forall r :: r in receipts <==> WellFormed(r) in s.listing.value
    requires forall k :: 0 <= k < |receipts| ==> Pullable(receipts[k], DirectoryOf(before, receipts[k].id), s, digest)
    requires Preserved(before, after) && forall id :: id in after ==> !HoldsInvalidReceipt(after[id], s.now)
    requires SomeFresh(s) && s.acknowledges
    ensures Cooperative(s, before, digest)
  {
    hide Pullable;
    ListingPullable(s, receipts, before, digest);
  }

  // ---- the disk and the remote source -----------------------------------------------------------

  class Host {
    const digest: Bytes -> string
    var dirs: map<string, Directory>
    var acks: seq<Ack>
    var status: Option<Status>
    var budget: nat
    ghost var promoted: map<string, Receipt>

    constructor (digest: Bytes -> string)
      ensures Good() && dirs == map[] && acks == [] && this.digest == digest
    {
      this.digest := digest;
      dirs, acks, status, budget, promoted := map[], [], None, 0, map[];
    }

    ghost predicate Good()
      reads this
    {
      && (forall id :: id in dirs ==> DirectoryGood(id, dirs[id], promoted, digest))
      && (forall k :: 0 <= k < |acks| ==> AckHonoured(dirs, acks[k], digest))
    }

    /** One atomic change of a directory, unless the process is killed first. */
    method Change(id: string, d: Directory) returns (exit: Exit)
      modifies this
      ensures exit == if old(budget) == 0 then Killed else Done
      ensures dirs == if exit.Done? then old(dirs)[id := d] else old(dirs)
      ensures acks == old(acks) && promoted == old(promoted) && status == old(status)
      ensures budget == if old(budget) == 0 then 0 else old(budget) - 1
    {
      if budget == 0 {
        return Killed;
      }
      budget := budget - 1;
      dirs := dirs[id := d];
      exit := Done;
    }

    /** A change that keeps what is stored in the directory. */
    method ChangeTemporaries(id: string, d: Directory) returns (exit: Exit)
      requires Good() && id in dirs && d.snapshot == dirs[id].snapshot && d.receipt == dirs[id].receipt
      modifies this
      ensures Good() && Preserved(old(dirs), dirs) && acks == old(acks)
      ensures exit.Done? || (exit.Killed? && budget == 0)
      ensures exit.Killed? ==> old(budget) < 1
      ensures old(budget) <= budget + 1
      ensures dirs == if exit.Done? then old(dirs)[id := d] else old(dirs)
    {
      exit := Change(id, d);
      forall k | 0 <= k < |acks| ensures AckHonoured(dirs, acks[k], digest) {
        PreservedKeepsAck(old(dirs), dirs, acks[k], digest);
      }
    }

    /** `mkdir(exist_ok=True)`. */
    method MakeDirectory(id: string) returns (exit: Exit)
      requires Good()
      modifies this
      ensures Good() && Preserved(old(dirs), dirs) && acks == old(acks)
      ensures exit.Done? || (exit.Killed? && budget == 0)
      ensures exit.Killed? ==> old(budget) < 1
      ensures old(budget) <= budget + 1
      ensures forall other :: DirectoryOf(dirs, other) == DirectoryOf(old(dirs), other)
      ensures exit.Done? ==> id in dirs
    {
      if id in dirs {
        return Done;
      }
      exit := Change(id, EMPTY);
      forall k | 0 <= k < |acks| ensures AckHonoured(dirs, acks[k], digest) {
        PreservedKeepsAck(old(dirs), dirs, acks[k], digest);
      }
    }

    /** The download loop and the promotion of the finished temporary file. */
    method Download(v: Receipt, s: Surroundings) returns (exit: Exit)
      requires Good() && v.id in dirs && dirs[v.id].snapshot.None?
      modifies this
      ensures Good() && Preserved(old(dirs), dirs) && acks == old(acks)
      ensures exit.Done? ==> v.id in dirs && dirs[v.id].snapshot.Some? && Matches(dirs[v.id].snapshot.value, v, digest)
      ensures exit.Done? ==> dirs[v.id].receipt == old(dirs)[v.id].receipt
      ensures OnlyChanges(old(dirs), dirs, v.id)
      ensures exit.Killed? ==> budget == 0
      ensures exit.Raised? ==> !Downloads(v, s, digest)
      ensures exit.Done? ==> Downloads(v, s, digest)
      // interrupted ciphertext is kept, and never grows beyond the announced size
      ensures v.id in dirs && old(dirs)[v.id].partials <= dirs[v.id].partials
      ensures forall k :: |old(dirs)[v.id].partials| <= k < |dirs[v.id].partials| ==>
        |dirs[v.id].partials[k]| == 0 || |dirs[v.id].partials[k]| <= v.bytes
      ensures exit.Done? ==> dirs[v.id].partials == old(dirs)[v.id].partials
      ensures exit.Killed? ==> old(budget) < |s.stream(v.id)| + 2
      ensures old(budget) <= budget + |s.stream(v.id)| + 2
    {
      hide Good, Preserved, OnlyChanges;
      PreservedByNothing(dirs, []);
      OnlyThisChanges(dirs, dirs, v.id);
      if s.free(v.id) < v.bytes + SPARE_BYTES {
        return Raised;
      }
      var kept := dirs[v.id].partials;
      exit := ChangeTemporaries(v.id, dirs[v.id].(partials := kept + [[]]));
      OnlyThisChanges(old(dirs), dirs, v.id);
      if !exit.Done? { return; }
      ghost var begun := dirs;
      var received;
      exit, received := Receive(v, kept, s.stream(v.id));
      ChangesOnward(old(dirs), begun, dirs, v.id);
      if !exit.Done? { return; }
      if !s.streamEndsWell(v.id) || |received| != v.bytes || digest(received) != v.sha256 {
        return Raised;
      }
      ghost var complete := dirs;
      exit := Promote(v, kept, received);
      ChangesOnward(old(dirs), complete, dirs, v.id);
    }

    /** Writing the stream block by block into the newest temporary file, up to the announced size. */
    method Receive(v: Receipt, kept: seq<Bytes>, blocks: seq<Bytes>) returns (exit: Exit, received: Bytes)
      requires Good() && v.id in dirs && dirs[v.id].snapshot.None? && dirs[v.id].partials == kept + [[]]
      modifies this
      ensures Good() && Preserved(old(dirs), dirs) && acks == old(acks)
      ensures OnlyChanges(old(dirs), dirs, v.id)
      ensures v.id in dirs && dirs[v.id].snapshot.None? && dirs[v.id].receipt == old(dirs)[v.id].receipt
      ensures exists part :: dirs[v.id].partials == kept + [part] && (|part| == 0 || |part| <= v.bytes)
      ensures exit.Done? ==> received == Concat(blocks) && dirs[v.id].partials == kept + [received]
      ensures exit.Raised? ==> |Concat(blocks)| > v.bytes
      ensures exit.Killed? ==> budget == 0 && old(budget) < |blocks|
      ensures old(budget) <= budget + |blocks|
    {
      received := [];
      var size := 0;
      for i := 0 to |blocks|
        invariant Good() && Preserved(old(dirs), dirs) && acks == old(acks)
        invariant v.id in dirs && dirs[v.id].snapshot.None? && dirs[v.id].receipt == old(dirs)[v.id].receipt
        invariant dirs[v.id].partials == kept + [received] && size == |received|
        invariant OnlyChanges(old(dirs), dirs, v.id)
        invariant received == Concat(blocks[..i]) && (size == 0 || size <= v.bytes)
        invariant old(budget) <= budget + i
      {
        assert blocks[..i + 1][..i] == blocks[..i];
        PrefixIsShorter(blocks, i + 1);
        if size + |blocks[i]| > v.bytes {
          exit := Raised;
          return;
        }
        size := size + |blocks[i]|;
        ghost var before := received;
        received := received + blocks[i];
        exit := ChangeTemporaries(v.id, dirs[v.id].(partials := kept + [received]));
        if !exit.Done? {
          assert dirs[v.id].partials == kept + [before];
          return;
        }
      }
      assert blocks[..|blocks|] == blocks;
      exit := Done;
    }

    /** `os.replace(tmp, final)`. */
    method Promote(v: Receipt, kept: seq<Bytes>, content: Bytes) returns (exit: Exit)
      requires Good() && v.id in dirs && dirs[v.id].snapshot.None?
      requires dirs[v.id].partials == kept + [content] && Matches(content, v, digest)
      modifies this
      ensures Good() && Preserved(old(dirs), dirs) && acks == old(acks)
      ensures exit.Done? ==> v.id in dirs && dirs[v.id].snapshot == Some(content)
      ensures v.id in dirs && dirs[v.id].partials == if exit.Done? then kept else kept + [content]
      ensures exit.Done? ==> dirs[v.id].receipt == old(dirs)[v.id].receipt
      ensures OnlyChanges(old(dirs), dirs, v.id)
      ensures exit.Done? || (exit.Killed? && budget == 0)
      ensures exit.Killed? ==> old(budget) < 1
      ensures old(budget) <= budget + 1
    {
      exit := Change(v.id, dirs[v.id].(snapshot := Some(content), partials := kept));
      if exit.Done? {
        promoted := promoted[v.id := v];
      }
      forall k | 0 <= k < |acks| ensures AckHonoured(dirs, acks[k], digest) {
        PreservedKeepsAck(old(dirs), dirs, acks[k], digest);
      }
    }

    /** `save_json(receipt, v)`: temporary file, write, atomic replace; an exception removes the temporary file. */
    method SaveReceipt(v: Receipt, s: Surroundings) returns (exit: Exit)
      requires Good() && v.id in dirs && dirs[v.id].receipt.None?
      requires dirs[v.id].snapshot.Some? && Matches(dirs[v.id].snapshot.value, v, digest)
      modifies this
      ensures Good() && Preserved(old(dirs), dirs) && acks == old(acks)
      ensures exit.Done? ==> StoredAndVerified(dirs, v, digest)
      ensures OnlyChanges(old(dirs), dirs, v.id)
      ensures exit.Killed? ==> budget == 0
      ensures exit.Raised? ==> s.writeFails(v.id)
      ensures exit.Done? ==> !s.writeFails(v.id)
      ensures !exit.Killed? ==> dirs[v.id].states == old(dirs)[v.id].states
      ensures exit.Killed? ==> old(budget) < 3
      ensures old(budget) <= budget + 3
    {
      var kept := dirs[v.id].states;
      exit := ChangeTemporaries(v.id, dirs[v.id].(states := kept + [None]));
      if !exit.Done? { return; }
      if s.writeFails(v.id) {
        exit := ChangeTemporaries(v.id, dirs[v.id].(states := kept));
        if !exit.Done? { return; }
        return Raised;
      }
      exit := ChangeTemporaries(v.id, dirs[v.id].(states := kept + [Some(v)]));
      if !exit.Done? { return; }
      exit := ReplaceReceipt(v, kept);
    }

    /** `os.replace(tmp, p)`: what the temporary file holds becomes the receipt. */
    method ReplaceReceipt(v: Receipt, kept: seq<Option<Receipt>>) returns (exit: Exit)
      requires Good() && v.id in dirs && dirs[v.id].receipt.None? && dirs[v.id].states == kept + [Some(v)]
      requires dirs[v.id].snapshot.Some? && Matches(dirs[v.id].snapshot.value, v, digest)
      modifies this
      ensures Good() && Preserved(old(dirs), dirs) && acks == old(acks)
      ensures exit.Done? ==> StoredAndVerified(dirs, v, digest) && dirs[v.id].states == kept
      ensures OnlyChanges(old(dirs), dirs, v.id)
      ensures exit.Done? || (exit.Killed? && budget == 0)
      ensures exit.Killed? ==> old(budget) < 1
      ensures old(budget) <= budget + 1
    {
      var written := dirs[v.id].states[|kept|];
      exit := Change(v.id, dirs[v.id].(receipt := written, states := kept));
      forall k | 0 <= k < |acks| ensures AckHonoured(dirs, acks[k], digest) {
        PreservedKeepsAck(old(dirs), dirs, acks[k], digest);
      }
    }

    /** One iteration of the pull loop. */
    method PullOne(v: Receipt, s: Surroundings) returns (exit: Exit)
      requires Good()
      modifies this
      ensures Good() && Preserved(old(dirs), dirs) && acks == old(acks)
      ensures exit.Done? ==> StoredAndVerified(dirs, v, digest)
      ensures OnlyChanges(old(dirs), dirs, v.id)
      ensures exit.Killed? ==> budget == 0
      ensures exit.Raised? ==> Refused(v, old(dirs), s, digest)
      ensures exit.Done? ==> Pullable(v, DirectoryOf(old(dirs), v.id), s, digest)
      ensures exit.Killed? ==> old(budget) < |s.stream(v.id)| + 6
      ensures old(budget) <= budget + |s.stream(v.id)| + 6
    {
      exit := MakeDirectory(v.id);
      if !exit.Done? { return; }
      if dirs[v.id].snapshot.Some? {
        var content := dirs[v.id].snapshot.value;
        if |content| != v.bytes || digest(content) != v.sha256 {
          return Raised;
        }
      } else {
        exit := Download(v, s);
        if !exit.Done? { return; }
      }
      if dirs[v.id].receipt.Some? {
        if ValidateReceipt(WellFormed(dirs[v.id].receipt.value), s.now) != Some(v) {
          return Raised;
        }
        exit := Done;
      } else {
        exit := SaveReceipt(v, s);
      }
    }

    /** The closing look through the directory: how many stored receipts there are, all still valid. */
    method CountSaved(s: Surroundings) returns (exit: Exit, saved: nat)
      requires Good()
      ensures exit.Done? ==> saved == StoredReceipts(dirs)
      ensures !exit.Killed?
      ensures exit.Done? ==> forall id :: id in dirs ==> !HoldsInvalidReceipt(dirs[id], s.now)
      ensures exit.Raised? ==>
        exists id :: id in dirs && HoldsInvalidReceipt(dirs[id], s.now)
    {
      var remaining := dirs.Keys;
      ghost var counted: set<string> := {};
      saved := 0;
      while remaining != {}
        invariant remaining <= dirs.Keys
        invariant counted == set id | id in dirs && id !in remaining && dirs[id].receipt.Some?
        invariant saved == |counted|
        invariant forall id :: id in dirs && id !in remaining ==> !HoldsInvalidReceipt(dirs[id], s.now)
        decreases |remaining|
      {
        var id :| id in remaining;
        remaining := remaining - {id};
        if dirs[id].receipt.Some? {
          var v := ValidateReceipt(WellFormed(dirs[id].receipt.value), s.now);
          if v.None? || v.value.id != id {
            return Raised, saved;
          }
          saved := saved + 1;
          counted := counted + {id};
        }
      }
      assert counted == set id | id in dirs && dirs[id].receipt.Some?;
      exit := Done;
    }

    /** The acknowledgement reaches the source. */
    method SendAck(v: Receipt) returns (exit: Exit)
      requires Good() && StoredAndVerified(dirs, v, digest)
      modifies this
      ensures Good() && dirs == old(dirs)
      ensures acks == if exit.Done? then old(acks) + [Ack(v.id, v.sha256)] else old(acks)
      ensures exit.Done? || (exit.Killed? && budget == 0)
      ensures exit.Killed? ==> old(budget) < 1
      ensures budget == if exit.Killed? then 0 else old(budget) - 1
    {
      if budget == 0 {
        return Killed;
      }
      budget := budget - 1;
      acks := acks + [Ack(v.id, v.sha256)];
      exit := Done;
    }

    method SaveStatus(state: Status) returns (exit: Exit)
      requires Good()
      modifies this
      ensures Good() && dirs == old(dirs) && acks == old(acks)
      ensures status == if exit.Done? then Some(state) else old(status)
      ensures exit.Done? || (exit.Killed? && budget == 0)
      ensures exit.Killed? ==> old(budget) < 1
      ensures budget == if exit.Killed? then 0 else old(budget) - 1
    {
      if budget == 0 {
        return Killed;
      }
      budget := budget - 1;
      status := Some(state);
      exit := Done;
    }

    /** Validating, sorting and de-duplicating the listing. */
    method ReadListing(s: Surroundings) returns (receipts: Option<seq<Receipt>>)
      ensures receipts.Some? <==> ValidListing(s)
      ensures receipts.Some? ==> |receipts.value| > 0 && ByDate(receipts.value) && DistinctIds(receipts.value)
      ensures receipts.Some? ==> s.listing.Some? && |receipts.value| == |s.listing.value| 
      ensures receipts.Some? ==> forall r :: r in receipts.value <==> WellFormed(r) in s.listing.value
      ensures receipts.Some? ==> forall v :: v in s.listing.value ==> v.WellFormed?
      ensures receipts.Some? ==> forall r :: r in receipts.value ==> Acceptable(WellFormed(r), s.now)
    {
      if s.listing.None? || !(1 <= |s.listing.value| <= MAX_LISTED) {
        return None;
      }
      var offered := s.listing.value;
      var valid: seq<Receipt> := [];
      for i := 0 to |offered|
        invariant |valid| == i
        invariant forall k :: 0 <= k < i ==>
          offered[k] == WellFormed(valid[k]) && Acceptable(offered[k], s.now)
      {
        var v := ValidateReceipt(offered[i], s.now);
        if v.None? {
          return None;
        }
        valid := valid + [v.value];
      }
      var sorted := SortByDate(valid);
      if exists i, j :: 0 <= i < j < |sorted| && sorted[i].id == sorted[j].id {
        if DistinctIds(valid) { ReorderingKeepsDistinctIds(valid, sorted); }
        return None;
      }
      ReorderingKeepsDistinctIds(sorted, valid);
      SameLength(sorted, valid);
      SameElements(sorted, valid);
      receipts := Some(sorted);
      forall r ensures r in sorted <==> WellFormed(r) in offered {
        if r in sorted {
          var k :| 0 <= k < |valid| && valid[k] == r;
          assert offered[k] == WellFormed(r);
        }
        if WellFormed(r) in offered {
          var k :| 0 <= k < |offered| && offered[k] == WellFormed(r);
          assert valid[k] == r;
        }
      }
    }

    /** The pull loop over the sorted receipts. */
    method PullListed(receipts: seq<Receipt>, s: Surroundings, ghost blocks: nat) returns (exit: Exit)
      requires Good() && DistinctIds(receipts) && forall r :: r in receipts ==> |s.stream(r.id)| <= blocks
      modifies this
      ensures Good() && Preserved(old(dirs), dirs) && acks == old(acks)
      ensures exit.Done? ==> forall k :: 0 <= k < |receipts| ==> StoredAndVerified(dirs, receipts[k], digest)
      ensures exit.Done? ==> ReceiptsKnown(old(dirs), dirs, receipts)
      ensures exit.Killed? ==> budget == 0
      ensures exit.Raised? ==> exists k :: 0 <= k < |receipts| && Refused(receipts[k], old(dirs), s, digest)
      ensures exit.Done? ==>
        forall k :: 0 <= k < |receipts| ==> Pullable(receipts[k], DirectoryOf(old(dirs), receipts[k].id), s, digest)
      ensures exit.Killed? ==> old(budget) < Effects(|receipts|, blocks)
      ensures old(budget) <= budget + Effects(|receipts|, blocks)
    {
      hide Pullable, StoredAndVerified, Refused, DirectoryOf, OnlyChanges, Preserved, Untouched, Good, ReceiptsKnown;
      PreservedByNothing(dirs, receipts);
      EffectsGrow(0, |receipts|, blocks);
      for i := 0 to |receipts|
        invariant Good() && Preserved(old(dirs), dirs) && acks == old(acks)
        invariant forall k :: 0 <= k < i ==> StoredAndVerified(dirs, receipts[k], digest)
        invariant Untouched(old(dirs), dirs, receipts, i)
        invariant forall k :: 0 <= k < i ==> Pullable(receipts[k], DirectoryOf(old(dirs), receipts[k].id), s, digest)
        invariant old(budget) <= budget + Effects(i, blocks) && Effects(i, blocks) <= Effects(|receipts|, blocks)
      {
        ghost var before := dirs;
        EffectsGrow(i + 1, |receipts|, blocks);
        UntouchedSoFar(old(dirs), before, receipts, i, s, digest);
        exit := PullOne(receipts[i], s);
        PreservedOnward(old(dirs), before, dirs);
        if !exit.Done? {
          return exit;
        }
        UntouchedOneMore(old(dirs), before, dirs, receipts, i);
        forall k | 0 <= k < i ensures StoredAndVerified(dirs, receipts[k], digest) {
          PreservedKeepsStored(before, dirs, receipts[k], digest);
        }
      }
      AllReceiptsKnown(old(dirs), dirs, receipts, digest);
      exit := Done;
    }

    /**
     One whole run of `main`. Whatever happens and wherever it stops, nothing stored is
     touched and the disk stays good; at most one acknowledgement goes out, it is for the
     newest listed receipt, and by then every listed receipt is stored and verified. Unless it is
     killed, the run finishes exactly when the surroundings cooperate; killing it takes less than the
     effects of pulling every listed receipt, the acknowledgement and the status file.
     */
    method Pull(s: Surroundings) returns (exit: Exit)
      requires Good()
      modifies this
      ensures Good() && Preserved(old(dirs), dirs)
      ensures acks == old(acks) || AllStored(s, dirs, digest)
      ensures acks == old(acks) || exists latest ::
        Acknowledged(s, latest) && acks == old(acks) + [Ack(latest.id, latest.sha256)]
      ensures exit.Killed? ==> budget == 0 && old(budget) < EffectsOfRun(s)
      ensures exit.Raised? ==> !Cooperative(s, old(dirs), digest)
      ensures exit.Done? ==> Cooperative(s, old(dirs), digest)
      ensures exit.Done? ==> acks != old(acks) && AllStored(s, dirs, digest)
      ensures exit.Done? ==> exists latest ::
        Acknowledged(s, latest) && status == Some(Status(true, StoredReceipts(dirs), latest.id, true))
    {
      hide Pullable, StoredAndVerified, Refused, DirectoryOf, Preserved, ReceiptsKnown, Acceptable, StoredReceipts;
      hide DistinctIds, ByDate, AllStored, HoldsInvalidReceipt, Good, Longest;
      PreservedByNothing(dirs, []);
      var listing := ReadListing(s);
      if listing.None? {
        return Raised;
      }
      var receipts := listing.value;
      exit := PullListed(receipts, s, Longest(s.listing.value, s.stream));
      if !exit.Done? {
        RefusalExcludesCooperation(s, receipts, old(dirs), digest);
        return exit;
      }
      ListingStored(s, receipts, dirs, digest);
      ghost var pulled := dirs;
      var saved;
      exit, saved := CountSaved(s);
      if !exit.Done? {
        InvalidExcludesCooperation(s, receipts, old(dirs), dirs, digest);
        return exit;
      }
      exit := Conclude(s, receipts, saved);
      if exit.Done? {
        FinishingMeansCooperation(s, receipts, old(dirs), pulled, digest);
      }
    }

    /** Health check, acknowledgement and status after a complete pull. */
    method Conclude(s: Surroundings, receipts: seq<Receipt>, saved: nat) returns (exit: Exit)
      requires Good() && AllStored(s, dirs, digest) && ByDate(receipts) && receipts != []
      requires forall r :: r in receipts <==> WellFormed(r) in s.listing.value
      requires saved == StoredReceipts(dirs)
      modifies this
      ensures Good() && dirs == old(dirs)
      ensures acks == old(acks) || exists latest ::
        Acknowledged(s, latest) && acks == old(acks) + [Ack(latest.id, latest.sha256)]
      ensures exit.Killed? ==> budget == 0 && old(budget) < 2
      ensures exit.Raised? ==> !s.acknowledges || !SomeFresh(s)
      ensures exit.Done? ==> s.acknowledges && SomeFresh(s) && acks != old(acks)
      ensures exit.Done? ==> exists latest ::
        Acknowledged(s, latest) && status == Some(Status(true, saved, latest.id, true))
      ensures exit.Raised? && !SomeFresh(s) ==>
        exists latest :: NewestListed(s, latest) && status == Some(Status(false, saved, latest.id, false))
    {
      var latest := receipts[|receipts| - 1];
      assert latest in receipts && NewestListed(s, latest);
      var state := Status(s.now - latest.createdAt < HEALTHY_MS, saved, latest.id, false);
      if !state.healthy {
        exit := SaveStatus(state);
        if !exit.Done? { return; }
        return Raised;
      }
      exit := SendAck(latest);
      if !exit.Done? { return; }
      if !s.acknowledges {
        return Raised;
      }
      exit := SaveStatus(state.(acknowledged := true));
    }

    /** Any number of runs, each killed after any number of effects. */
    method PullRuns(runs: seq<(Surroundings, nat)>)
      requires Good()
      modifies this
      ensures Good() && Preserved(old(dirs), dirs)
      ensures old(acks) <= acks
    {
      for i := 0 to |runs|
        invariant Good() && Preserved(old(dirs), dirs)
        invariant old(acks) <= acks
      {
        budget := runs[i].1;
        var exit := Pull(runs[i].0);
      }
    }
  }
}
