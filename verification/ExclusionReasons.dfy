/** The exclusion summary of a campaign: `mergeExclusionReasons` of `src/lib/admin-notification-ops-utils.ts`. */
module ExclusionReasons {
  import opened Wrappers
  import opened CampaignAudience
  import StableSort

  datatype Row = Row(code: Reason, count: nat)

  /** `flatMap((channel) => channel.reasons)`. */
  function Flatten(channels: seq<seq<Row>>): seq<Row> {
    if channels == [] then [] else channels[0] + Flatten(channels[1..])
  }

  /** How often a code is counted in all rows together. */
  function Sum(rows: seq<Row>, code: Reason): nat {
    if rows == [] then 0
    else Sum(rows[..|rows| - 1], code) + if rows[|rows| - 1].code == code then rows[|rows| - 1].count else 0
  }

  function Codes(rows: seq<Row>): set<Reason> { set i | 0 <= i < |rows| :: rows[i].code }

  predicate DistinctCodes(rows: seq<Row>) {
    forall i, j :: 0 <= i < j < |rows| ==> rows[i].code != rows[j].code
  }

  /** The first row of a code. */
  function Find(rows: seq<Row>, code: Reason): (i: Option<nat>)
    ensures i.Some? ==> i.value < |rows| && rows[i.value].code == code
    ensures i.None? ==> code !in Codes(rows)
  {
    if rows == [] then None
    else if rows[|rows| - 1].code == code && Find(rows[..|rows| - 1], code).None? then Some(|rows| - 1)
    else Find(rows[..|rows| - 1], code)
  }

  /** Rows are merged: one row per code, holding the code's sum. */
  ghost predicate Merged(acc: seq<Row>, rows: seq<Row>) {
    DistinctCodes(acc) && Codes(acc) == Codes(rows) &&
    forall i :: 0 <= i < |acc| ==> acc[i].count == Sum(rows, acc[i].code)
  }

  lemma SumAppend(rows: seq<Row>, row: Row, code: Reason)
    ensures Sum(rows + [row], code) == Sum(rows, code) + if row.code == code then row.count else 0
  {
    assert (rows + [row])[..|rows|] == rows;
  }

  lemma CodesAppend(rows: seq<Row>, row: Row)
    ensures Codes(rows + [row]) == Codes(rows) + {row.code}
  {
    forall c | c in Codes(rows) + {row.code} ensures c in Codes(rows + [row]) {
      if c in Codes(rows) {
        var i :| 0 <= i < |rows| && rows[i].code == c;
        assert (rows + [row])[i].code == c;
      } else {
        assert (rows + [row])[|rows|].code == c;
      }
    }
  }

  lemma {:induction false} AbsentSum(rows: seq<Row>, code: Reason)
    requires code !in Codes(rows)
    ensures Sum(rows, code) == 0
  {
    if rows == [] {
    } else {
      assert rows[|rows| - 1].code in Codes(rows);
      assert Codes(rows[..|rows| - 1]) <= Codes(rows);
      AbsentSum(rows[..|rows| - 1], code);
    }
  }

  /** An existing row takes the count. */
  lemma AddToExisting(acc: seq<Row>, rows: seq<Row>, row: Row, at: nat)
    requires Merged(acc, rows) && at < |acc| && acc[at].code == row.code
    ensures Merged(acc[at := Row(row.code, acc[at].count + row.count)], rows + [row])
  {
    var next := acc[at := Row(row.code, acc[at].count + row.count)];
    CodesAppend(rows, row);
    assert forall i :: 0 <= i < |acc| ==> next[i].code == acc[i].code;
    assert Codes(next) == Codes(acc) by {
      forall c ensures c in Codes(next) <==> c in Codes(acc) {
        if c in Codes(acc) { var i :| 0 <= i < |acc| && acc[i].code == c; assert next[i].code == c; }
      }
    }
    assert row.code in Codes(acc);
    forall i | 0 <= i < |next| ensures next[i].count == Sum(rows + [row], next[i].code) {
      SumAppend(rows, row, next[i].code);
    }
  }

  /** A new code gets a row of its own. */
  lemma AddNew(acc: seq<Row>, rows: seq<Row>, row: Row)
    requires Merged(acc, rows) && row.code !in Codes(acc)
    ensures Merged(acc + [row], rows + [row])
  {
    CodesAppend(rows, row);
    CodesAppend(acc, row);
    AbsentSum(rows, row.code);
    var next := acc + [row];
    forall i | 0 <= i < |next| ensures next[i].count == Sum(rows + [row], next[i].code) {
      SumAppend(rows, row, next[i].code);
      if i < |acc| { assert acc[i].code in Codes(acc); }
    }
    assert forall i :: 0 <= i < |acc| ==> acc[i].code in Codes(acc);
  }

  // ---- sorting -----------------------------------------------------------------------------------

  predicate Descending(rows: seq<Row>) { forall i, j :: 0 <= i <= j < |rows| ==> rows[i].count >= rows[j].count }

  function LargestFirst(row: Row): int { -(row.count as int) }

  /** `sort((a, b) => b.count - a.count)`. */
  function SortedByCount(rows: seq<Row>): (sorted: seq<Row>)
    ensures Descending(sorted) && multiset(sorted) == multiset(rows)
  {
    StableSort.SortedIsOrdered(rows, LargestFirst);
    StableSort.SortedKeeps(rows, LargestFirst);
    StableSort.Sorted(rows, LargestFirst)
  }

  // ---- the summary -------------------------------------------------------------------------------

  /** The position at which a code appears first; behind all rows if it does not appear. */
  function First(rows: seq<Row>, code: Reason): nat {
    if rows == [] then 0
    else
      var before := First(rows[..|rows| - 1], code);
      if before < |rows| - 1 || rows[|rows| - 1].code == code then before else |rows|
  }

  lemma {:induction false} FirstMeans(rows: seq<Row>, code: Reason)
    ensures var n := First(rows, code);
      n <= |rows| && (n < |rows| <==> code in Codes(rows)) && (n < |rows| ==> rows[n].code == code) &&
      forall i :: 0 <= i < n ==> rows[i].code != code
  {
    if rows == [] {
    } else {
      FirstMeans(rows[..|rows| - 1], code);
      if First(rows, code) < |rows| { assert rows[First(rows, code)].code in Codes(rows); }
    }
  }

  lemma FirstAppend(rows: seq<Row>, row: Row, code: Reason)
    ensures First(rows + [row], code) ==
      if code in Codes(rows) || code == row.code then First(rows, code) else |rows| + 1
    ensures code in Codes(rows) <==> First(rows, code) < |rows|
    ensures code !in Codes(rows) ==> First(rows, code) == |rows|
  {
    FirstMeans(rows, code);
    assert (rows + [row])[..|rows|] == rows;
  }

  /** The merged rows are in the order in which their codes appear. */
  predicate InOrderOfAppearance(acc: seq<Row>, rows: seq<Row>) {
    forall i, j :: 0 <= i < j < |acc| ==> First(rows, acc[i].code) < First(rows, acc[j].code)
  }

  lemma AppearanceKept(acc: seq<Row>, next: seq<Row>, rows: seq<Row>, row: Row)
    requires Codes(acc) == Codes(rows) && InOrderOfAppearance(acc, rows)
    requires |next| == |acc| && forall i :: 0 <= i < |acc| ==> next[i].code == acc[i].code
    ensures InOrderOfAppearance(next, rows + [row])
    ensures row.code !in Codes(rows) ==> InOrderOfAppearance(next + [row], rows + [row])
  {
    forall i | 0 <= i < |acc| ensures First(rows + [row], acc[i].code) == First(rows, acc[i].code) < |rows| {
      assert acc[i].code in Codes(acc);
      FirstAppend(rows, row, acc[i].code);
    }
    FirstAppend(rows, row, row.code);
  }

  /** The three most frequent codes at most, each with its sum, the most frequent first, ties as they appear. */
  ghost predicate IsSummary(top: seq<Row>, rows: seq<Row>) {
    && DistinctCodes(top) && |top| <= 3
    && (forall row :: row in top ==> row.code in Codes(rows) && row.count == Sum(rows, row.code))
    && (forall code :: code in Codes(rows) && code !in Codes(top) ==>
        |top| == 3 && forall row :: row in top ==> Precedes(row, code, rows))
    && (forall i, j :: 0 <= i < j < |top| ==> Precedes(top[i], top[j].code, rows))
  }

  /** The row's code counts more than the other code, or as much and appears earlier. */
  predicate Precedes(row: Row, other: Reason, rows: seq<Row>) {
    row.count > Sum(rows, other) || (row.count == Sum(rows, other) && First(rows, row.code) < First(rows, other))
  }

  method MergeExclusionReasons(channels: seq<seq<Row>>) returns (top: seq<Row>)
    ensures IsSummary(top, Flatten(channels))
  {
    var rows := Flatten(channels);
    var accumulator: seq<Row> := [];
    assert Codes(rows[..0]) == Codes(accumulator);
    for i := 0 to |rows|
      invariant Merged(accumulator, rows[..i]) && InOrderOfAppearance(accumulator, rows[..i])
    {
      var reason := rows[i];
      assert rows[..i + 1] == rows[..i] + [reason];
      var existing := Find(accumulator, reason.code);
      if existing.Some? {
        AddToExisting(accumulator, rows[..i], reason, existing.value);
        var total := accumulator[existing.value].count + reason.count;
        AppearanceKept(accumulator, accumulator[existing.value := Row(reason.code, total)], rows[..i], reason);
        accumulator := accumulator[existing.value := Row(reason.code, total)];
      } else {
        AddNew(accumulator, rows[..i], reason);
        AppearanceKept(accumulator, accumulator, rows[..i], reason);
        accumulator := accumulator + [reason];
      }
    }
    assert rows[..|rows|] == rows;
    var sorted := SortedByCount(accumulator);
    top := Top(sorted);
    SummaryOfSorted(accumulator, rows);
  }

  lemma SameRows(a: seq<Row>, b: seq<Row>, row: Row)
    requires multiset(a) == multiset(b)
    ensures row in a <==> row in b
  {
    assert row in multiset(a) <==> row in multiset(b);
  }

  lemma {:induction false} DistinctMeansOnce(rows: seq<Row>)
    requires DistinctCodes(rows)
    ensures forall r :: multiset(rows)[r] <= 1
    ensures forall r, s :: r in rows && s in rows && r.code == s.code ==> r == s
  {
    if rows == [] {
    } else {
      var front, last := rows[..|rows| - 1], rows[|rows| - 1];
      DistinctMeansOnce(front);
      assert rows == front + [last];
      assert last !in front;
    }
  }

  lemma {:induction false} OnceMeansDistinct(rows: seq<Row>)
    requires forall r :: multiset(rows)[r] <= 1
    requires forall r, s :: r in rows && s in rows && r.code == s.code ==> r == s
    ensures DistinctCodes(rows)
  {
    forall i, j | 0 <= i < j < |rows| ensures rows[i].code != rows[j].code {
      if rows[i] == rows[j] { TwoPlaces(rows, i, j); }
    }
  }

  lemma TwoPlaces(rows: seq<Row>, i: nat, j: nat)
    requires i < j < |rows| && rows[i] == rows[j]
    ensures multiset(rows)[rows[i]] >= 2
  {
    assert rows == rows[..j] + rows[j..];
    assert rows[i] in rows[..j] && rows[j] in rows[j..];
  }

  function Top(sorted: seq<Row>): seq<Row> { sorted[..if |sorted| < 3 then |sorted| else 3] }

  /** In the sorted rows, every row precedes the codes of all later rows. */
  lemma SortedPrecede(acc: seq<Row>, rows: seq<Row>)
    requires Merged(acc, rows) && InOrderOfAppearance(acc, rows)
    ensures var sorted := SortedByCount(acc);
      forall i, j :: 0 <= i < j < |sorted| ==> Precedes(sorted[i], sorted[j].code, rows)
  {
    var sorted := SortedByCount(acc);
    var appears: Row -> int := (row: Row) => First(rows, row.code);
    StableSort.SortedTies(acc, LargestFirst, appears);
    hide Sum, First, SortedByCount;
    forall i, j | 0 <= i < j < |sorted| ensures Precedes(sorted[i], sorted[j].code, rows) {
      SameRows(sorted, acc, sorted[j]);
      assert LargestFirst(sorted[i]) == LargestFirst(sorted[j]) ==> appears(sorted[i]) < appears(sorted[j]);
    }
  }

  lemma SummaryOfSorted(acc: seq<Row>, rows: seq<Row>)
    requires Merged(acc, rows) && InOrderOfAppearance(acc, rows)
    ensures IsSummary(Top(SortedByCount(acc)), rows)
  {
    SortedPrecede(acc, rows);
    hide SortedByCount, Sum, First, Precedes;
    var sorted := SortedByCount(acc);
    forall row ensures row in sorted <==> row in acc { SameRows(sorted, acc, row); }
    DistinctMeansOnce(acc);
    OnceMeansDistinct(sorted);
    forall i | 0 <= i < |sorted| ensures IsTotal(sorted[i], rows) {
      assert sorted[i] in sorted;
    }
    hide DistinctCodes, Codes, Top, IsTotal, Merged;
    forall code | code in Codes(rows) && code !in Codes(Top(sorted))
      ensures |Top(sorted)| == 3 && forall row :: row in Top(sorted) ==> Precedes(row, code, rows)
    {
      LeftOut(acc, rows, sorted, code);
    }
    TopIsSummary(sorted, rows);
  }

  /** A code of the rows with its sum. */
  predicate IsTotal(row: Row, rows: seq<Row>) { row.code in Codes(rows) && row.count == Sum(rows, row.code) }

  lemma TopIsSummary(sorted: seq<Row>, rows: seq<Row>)
    requires DistinctCodes(sorted) && forall i :: 0 <= i < |sorted| ==> IsTotal(sorted[i], rows)
    requires forall i, j :: 0 <= i < j < |sorted| ==> Precedes(sorted[i], sorted[j].code, rows)
    requires forall code :: code in Codes(rows) && code !in Codes(Top(sorted)) ==>
      |Top(sorted)| == 3 && forall row :: row in Top(sorted) ==> Precedes(row, code, rows)
    ensures IsSummary(Top(sorted), rows)
  {
    hide Codes, Sum, Precedes;
    var top := Top(sorted);
    assert forall i :: 0 <= i < |top| ==> top[i] == sorted[i];
  }

  /** A code that is left out has a row behind the shown ones. */
  lemma LeftOut(acc: seq<Row>, rows: seq<Row>, sorted: seq<Row>, code: Reason)
    requires Merged(acc, rows) && code in Codes(rows) && code !in Codes(Top(sorted))
    requires forall row :: row in acc ==> row in sorted
    requires forall i, j :: 0 <= i < j < |sorted| ==> Precedes(sorted[i], sorted[j].code, rows)
    ensures |Top(sorted)| == 3 && forall row :: row in Top(sorted) ==> Precedes(row, code, rows)
  {
    hide Sum, Precedes;
    var i :| 0 <= i < |acc| && acc[i].code == code;
    assert acc[i] in acc;
    var k :| 0 <= k < |sorted| && sorted[k] == acc[i];
    var top := Top(sorted);
    assert forall n :: 0 <= n < |top| ==> top[n].code in Codes(top);
  }
}
