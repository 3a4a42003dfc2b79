/** Choosing the sender for a member: `src/lib/admin-notification-ops-utils.ts`. */
module MattermostSenders {
  import opened Wrappers
  import StableSort

  datatype Subject = Subject(isStaff: bool, sourceYears: seq<int>, generation: int)

  function Positive(years: seq<int>): seq<int> {
    if years == [] then []
    else Positive(years[..|years| - 1]) + if years[|years| - 1] > 0 then [years[|years| - 1]] else []
  }

  function LatestFirst(year: int): int { -year }

  /** `sort((a, b) => b - a)`. */
  function SortedDescending(years: seq<int>): seq<int> { StableSort.Sorted(years, LatestFirst) }

  /** `Array.from(new Set(years))`. */
  function Unique(years: seq<int>): seq<int> {
    if years == [] then []
    else
      var front, last := Unique(years[..|years| - 1]), years[|years| - 1];
      if last in front then front else front + [last]
  }

  /** `getMattermostSenderCandidateYears`. */
  function CandidateYears(m: Subject): seq<int> {
    if !m.isStaff then if m.generation > 0 then [m.generation] else []
    else Unique(SortedDescending(Positive(m.sourceYears)))
  }

  function FirstActive(years: seq<int>, active: set<int>): Option<int> {
    if years == [] then None
    else if years[0] in active then Some(years[0])
    else FirstActive(years[1..], active)
  }

  /** `resolveMattermostSenderGenerationForMember`. */
  function ResolveGeneration(m: Subject, active: set<int>): Option<int> { FirstActive(CandidateYears(m), active) }

  /** The years a member can be written to from. */
  predicate IsCandidate(m: Subject, year: int) {
    year > 0 && if m.isStaff then year in m.sourceYears else year == m.generation
  }

  predicate Descending(years: seq<int>) { forall i, j :: 0 <= i <= j < |years| ==> years[i] >= years[j] }

  lemma {:induction false} PositiveYears(years: seq<int>, y: int)
    ensures y in Positive(years) <==> y > 0 && y in years
  {
    if years == [] {
    } else {
      PositiveYears(years[..|years| - 1], y);
      assert years == years[..|years| - 1] + [years[|years| - 1]];
    }
  }

  lemma SortedYears(years: seq<int>)
    ensures Descending(SortedDescending(years)) && forall y :: y in SortedDescending(years) <==> y in years
  {
    StableSort.SortedIsOrdered(years, LatestFirst);
    forall y ensures y in SortedDescending(years) <==> y in years { StableSort.SameMembers(years, LatestFirst, y); }
  }

  lemma {:induction false} UniqueYears(years: seq<int>)
    requires Descending(years)
    ensures Descending(Unique(years)) && forall y :: y in Unique(years) <==> y in years
  {
    if years == [] {
    } else {
      var front, last := years[..|years| - 1], years[|years| - 1];
      UniqueYears(front);
      assert years == front + [last];
      forall i | 0 <= i < |Unique(front)| ensures Unique(front)[i] >= last {
        assert Unique(front)[i] in Unique(front) && Unique(front)[i] in front;
      }
    }
  }

  lemma {:induction false} FirstActiveIsGreatest(years: seq<int>, active: set<int>)
    requires Descending(years)
    ensures var r := FirstActive(years, active);
      match r
      case None => forall y :: y in years ==> y !in active
      case Some(g) => g in years && g in active && forall y :: y in years && y in active ==> y <= g
  {
    if years == [] || years[0] in active {
    } else {
      FirstActiveIsGreatest(years[1..], active);
      assert years == [years[0]] + years[1..];
    }
  }

  /** The sender is the newest active generation among the member's own; none exactly when there is none. */
  lemma SenderIsNewestActive(m: Subject, active: set<int>)
    ensures match ResolveGeneration(m, active)
      case None => forall y :: IsCandidate(m, y) ==> y !in active
      case Some(g) => IsCandidate(m, g) && g in active && forall y :: IsCandidate(m, y) && y in active ==> y <= g
  {
    CandidatesAre(m);
    FirstActiveIsGreatest(CandidateYears(m), active);
  }

  lemma CandidatesAre(m: Subject)
    ensures Descending(CandidateYears(m)) && forall y :: y in CandidateYears(m) <==> IsCandidate(m, y)
  {
    if m.isStaff {
      var positive := Positive(m.sourceYears);
      SortedYears(positive);
      UniqueYears(SortedDescending(positive));
      forall y ensures y in CandidateYears(m) <==> IsCandidate(m, y) { PositiveYears(m.sourceYears, y); }
    }
  }
}
