/** Spreadsheet column names: `toColumnName` of `src/lib/admin-partner-file-import.server.ts`. */
module ColumnNames {
  function Letter(n: nat): char
    requires n < 26
  {
    ('A' as int + n) as char
  }

  predicate IsName(s: string) { forall i :: 0 <= i < |s| ==> 'A' <= s[i] <= 'Z' }

  /** The name of column `n`, counted from 1; the empty name stands for no column. */
  function ColumnName(n: nat): (s: string)
    ensures IsName(s) && (n > 0 <==> s != "")
  {
    if n == 0 then "" else ColumnName((n - 1) / 26) + [Letter((n - 1) % 26)]
  }

  /** Bijective base 26: the column a name denotes. */
  function ColumnIndex(s: string): nat
    requires IsName(s)
  {
    if s == "" then 0 else 26 * ColumnIndex(s[..|s| - 1]) + (s[|s| - 1] as int - 'A' as int + 1)
  }

  lemma {:induction false} IndexOfName(n: nat)
    ensures ColumnIndex(ColumnName(n)) == n
  {
    if n == 0 {
    } else {
      var front := ColumnName((n - 1) / 26);
      IndexOfName((n - 1) / 26);
      assert ColumnName(n)[..|ColumnName(n)| - 1] == front;
    }
  }

  lemma {:induction false} NameOfIndex(s: string)
    requires IsName(s)
    ensures ColumnName(ColumnIndex(s)) == s
  {
    if s == "" {
    } else {
      var front, digit := s[..|s| - 1], s[|s| - 1] as int - 'A' as int;
      NameOfIndex(front);
      var n := 26 * ColumnIndex(front) + digit + 1;
      assert (n - 1) / 26 == ColumnIndex(front) && (n - 1) % 26 == digit;
      assert s == front + [s[|s| - 1]];
    }
  }

  /** Every non-empty name belongs to exactly one column number, and every number has one name. */
  lemma NamesAreBijective(s: string)
    requires IsName(s) && s != ""
    ensures ColumnIndex(s) >= 1 && forall n: nat :: ColumnName(n) == s <==> n == ColumnIndex(s)
  {
    NameOfIndex(s);
    forall n: nat ensures ColumnName(n) == s <==> n == ColumnIndex(s) {
      IndexOfName(n);
    }
  }

  /** `toColumnName`; an index that is not positive gives the empty name. */
  method ToColumnName(index: int) returns (name: string)
    ensures name == ColumnName(if index > 0 then index else 0)
  {
    var remaining := index;
    name := "";
    while remaining > 0
      invariant remaining >= 0 || name == ""
      invariant ColumnName(if index > 0 then index else 0) == ColumnName(if remaining > 0 then remaining else 0) + name
      decreases remaining
    {
      var modulo := (remaining - 1) % 26;
      name := [Letter(modulo)] + name;
      assert (remaining - modulo) / 26 == (remaining - 1) / 26;
      remaining := (remaining - modulo) / 26;
    }
  }
}
