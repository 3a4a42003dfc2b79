/** Decimal numerals: `String(n)`, `padStart` with zeros, and reading digits back. */
module DecimalText {
  predicate IsDigit(c: char) { '0' <= c <= '9' }

  predicate AllDigits(s: string) { forall i :: 0 <= i < |s| ==> IsDigit(s[i]) }

  function Digit(n: nat): char
    requires n < 10
  {
    "0123456789"[n]
  }

  function DigitValue(c: char): nat
    requires IsDigit(c)
  {
    c as int - '0' as int
  }

  function Digits(n: nat): (s: string)
    ensures AllDigits(s) && |s| > 0
  {
    if n < 10 then [Digit(n)] else Digits(n / 10) + [Digit(n % 10)]
  }

  lemma {:induction false} DigitsLength(n: nat)
    ensures n < 10 ==> |Digits(n)| == 1
    ensures 10 <= n < 100 ==> |Digits(n)| == 2
    ensures n < 1000 ==> |Digits(n)| <= 3
    ensures 1000 <= n < 10_000 ==> |Digits(n)| == 4
    ensures n >= 10_000 ==> |Digits(n)| >= 5
  {
    if n < 10 {
    } else {
      var tens := n / 10;
      assert |Digits(n)| == |Digits(tens)| + 1;
      DigitsLength(tens);
    }
  }

  /** The number a digit string denotes; leading zeros are allowed. */
  function Value(s: string): nat
    requires AllDigits(s)
  {
    if s == [] then 0 else 10 * Value(s[..|s| - 1]) + DigitValue(s[|s| - 1])
  }

  lemma DigitValueOfDigit(n: nat)
    requires n < 10
    ensures IsDigit(Digit(n)) && DigitValue(Digit(n)) == n
  {
  }

  lemma {:induction false} ValueOfDigits(n: nat)
    ensures Value(Digits(n)) == n
  {
    DigitValueOfDigit(n % 10);
    hide Digit, DigitValue;
    if n < 10 {
      assert [Digit(n)][..0] == [];
    } else {
      ValueOfDigits(n / 10);
      assert Digits(n)[..|Digits(n)| - 1] == Digits(n / 10);
    }
  }

  /** A numeral without a leading zero is the numeral of its value. */
  lemma {:induction false} DigitsOfValue(s: string)
    requires AllDigits(s) && s != [] && (s[0] != '0' || |s| == 1)
    ensures Digits(Value(s)) == s
  {
    var front, last := s[..|s| - 1], s[|s| - 1];
    if |s| == 1 {
      assert Value(front) == 0 && s == [last];
    } else {
      DigitsOfValue(front);
      FrontIsPositive(front);
      AppendDigit(Value(front), last);
      assert s == front + [last];
    }
  }

  lemma {:induction false} FrontIsPositive(s: string)
    requires AllDigits(s) && s != [] && s[0] != '0'
    ensures Value(s) > 0
  {
    if |s| == 1 {
      assert s[..0] == "";
    } else {
      FrontIsPositive(s[..|s| - 1]);
    }
  }

  lemma AppendDigit(front: nat, last: char)
    requires front > 0 && IsDigit(last)
    ensures Digits(10 * front + DigitValue(last)) == Digits(front) + [last]
  {
    SplitLastDigit(front, DigitValue(last));
  }

  lemma SplitLastDigit(front: nat, last: nat)
    requires last < 10
    ensures (10 * front + last) / 10 == front && (10 * front + last) % 10 == last
  {
  }

  /** `padStart(width, "0")`. */
  function Padded(s: string, width: nat): string
    decreases width - |s|
  {
    if |s| >= width then s else Padded("0" + s, width)
  }

  lemma {:induction false} LeadingZero(s: string)
    requires AllDigits(s)
    ensures AllDigits("0" + s) && Value("0" + s) == Value(s)
  {
    if s == "" {
      assert "0"[..0] == "";
    } else {
      LeadingZero(s[..|s| - 1]);
      assert ("0" + s)[..|s|] == "0" + s[..|s| - 1];
    }
  }

  lemma {:induction false} PaddedKeepsValue(s: string, width: nat)
    requires AllDigits(s)
    ensures var t := Padded(s, width);
      AllDigits(t) && Value(t) == Value(s) && |t| == if |s| >= width then |s| else width
    decreases width - |s|
  {
    if |s| >= width {
    } else {
      LeadingZero(s);
      PaddedKeepsValue("0" + s, width);
    }
  }

  lemma {:induction false} SameValueSameText(s: string, t: string)
    requires AllDigits(s) && AllDigits(t) && |s| == |t| && Value(s) == Value(t)
    ensures s == t
  {
    if s == "" {
    } else {
      var last := |s| - 1;
      LastDigit(Value(s[..last]), DigitValue(s[last]), Value(t[..last]), DigitValue(t[last]));
      SameValueSameText(s[..last], t[..last]);
      assert s == s[..last] + [s[last]] && t == t[..last] + [t[last]];
    }
  }

  lemma LastDigit(front: nat, last: nat, otherFront: nat, otherLast: nat)
    requires last < 10 && otherLast < 10 && 10 * front + last == 10 * otherFront + otherLast
    ensures front == otherFront && last == otherLast
  {
  }

  lemma {:induction false} DigitsNotLonger(s: string)
    requires AllDigits(s) && s != ""
    ensures |Digits(Value(s))| <= |s|
  {
    var front := s[..|s| - 1];
    if front == "" {
      assert Value(s) == DigitValue(s[0]);
    } else {
      DigitsNotLonger(front);
      SplitLastDigit(Value(front), DigitValue(s[|s| - 1]));
    }
  }

  /** A digit string of a given length is the padded numeral of its value. */
  lemma PaddedOfValue(s: string)
    requires AllDigits(s) && s != ""
    ensures Padded(Digits(Value(s)), |s|) == s
  {
    DigitsNotLonger(s);
    ValueOfDigits(Value(s));
    PaddedKeepsValue(Digits(Value(s)), |s|);
    SameValueSameText(Padded(Digits(Value(s)), |s|), s);
  }

  lemma {:induction false} ValueBound(s: string)
    requires AllDigits(s)
    ensures |s| == 1 ==> Value(s) < 10
    ensures |s| == 2 ==> Value(s) < 100
    ensures |s| == 3 ==> Value(s) < 1000
    ensures |s| == 4 ==> Value(s) < 10_000
  {
    if |s| <= 1 {
      assert s == [] || s[..0] == [];
    } else {
      ValueBound(s[..|s| - 1]);
    }
  }

  lemma ValueOfFour(s: string)
    requires AllDigits(s) && |s| == 4
    ensures Value(s) == 100 * Value(s[..2]) + Value(s[2..])
  {
    assert s[..3][..2] == s[..2];
    ValueOfTwo(s[2..]);
    assert Value(s[..3]) == 10 * Value(s[..2]) + DigitValue(s[2]);
  }

  lemma ValueOfTwo(s: string)
    requires AllDigits(s) && |s| == 2
    ensures Value(s) == 10 * DigitValue(s[0]) + DigitValue(s[1])
  {
    assert s[..1][..0] == "" && s[..1] == [s[0]];
    assert Value(s[..1]) == DigitValue(s[0]);
  }

  /** `padStart(2, "0")`. */
  function Pad2(n: nat): (s: string)
    ensures AllDigits(s)
    ensures n < 100 ==> |s| == 2
  {
    DigitsLength(n);
    if n < 10 then "0" + Digits(n) else Digits(n)
  }

  lemma {:induction false} ValueOfPad2(n: nat)
    ensures Value(Pad2(n)) == n
  {
    ValueOfDigits(n);
    if n < 10 {
      assert Pad2(n)[..1] == "0" && "0"[..0] == [];
      assert Value("0") == 0;
    }
  }

  lemma Pad2OfValue(s: string)
    requires AllDigits(s) && |s| == 2
    ensures Value(s) < 100 && Pad2(Value(s)) == s
  {
    assert s[..1] == [s[0]] && [s[0]][..0] == [];
    assert Value(s[..1]) == DigitValue(s[0]);
    if s[0] == '0' {
      assert Digits(Value(s)) == [s[1]];
    } else {
      DigitsOfValue(s);
    }
  }

  lemma Pad2Injective(m: nat, n: nat)
    requires Pad2(m) == Pad2(n)
    ensures m == n
  {
    ValueOfPad2(m);
    ValueOfPad2(n);
  }

  /** A digit string is delimited by the first non-digit that follows it. */
  lemma SplitAtMark(a: string, b: string, x: string, y: string, mark: char)
    requires AllDigits(a) && AllDigits(x) && !IsDigit(mark)
    requires a + [mark] + b == x + [mark] + y
    ensures a == x && b == y
  {
    var s, t := a + [mark] + b, x + [mark] + y;
    assert s[|a|] == mark && t[|x|] == mark;
    assert forall i :: 0 <= i < |a| ==> s[i] == a[i];
    assert forall i :: 0 <= i < |x| ==> t[i] == x[i];
    assert |a| == |x|;
    assert a == s[..|a|] && x == t[..|x|];
    assert b == s[|a| + 1..] && y == t[|x| + 1..];
  }
}
