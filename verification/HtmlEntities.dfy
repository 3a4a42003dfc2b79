/**
 `escapeHtml` and `decodeHtmlEntities` of `src/lib/email-content.ts`. Text is a sequence of
 Unicode scalar values; what a numeric reference to a surrogate becomes is a parameter.
 */
module HtmlEntities {
  import opened Wrappers
  import opened DecimalText

  // ---- escaping ------------------------------------------------------------------------------

  /** `s.replace(/c/g, by)`. */
  function ReplaceAll(s: string, c: char, text: string): string {
    if s == "" then "" else (if s[0] == c then text else [s[0]]) + ReplaceAll(s[1..], c, text)
  }

  /** `escapeHtml`: five global replaces, one after the other. */
  function EscapeHtml(value: string): string {
    var ampersands := ReplaceAll(value, '&', "&amp;");
    var lesses := ReplaceAll(ampersands, '<', "&lt;");
    var greaters := ReplaceAll(lesses, '>', "&gt;");
    var quotes := ReplaceAll(greaters, '"', "&quot;");
    ReplaceAll(quotes, '\'', "&#39;")
  }

  predicate IsSpecial(c: char) { c == '&' || c == '<' || c == '>' || c == '"' || c == '\'' }

  /** The entity a character is written as; every other character stands for itself. */
  function Entity(c: char): string {
    if c == '&' then "&amp;"
    else if c == '<' then "&lt;"
    else if c == '>' then "&gt;"
    else if c == '"' then "&quot;"
    else if c == '\'' then "&#39;"
    else [c]
  }

  /** One simultaneous substitution. */
  function Substituted(value: string): string {
    if value == "" then "" else Entity(value[0]) + Substituted(value[1..])
  }

  lemma ReplaceFirst(s: string, head: char, tail: string, c: char, text: string)
    requires s == [head] + tail
    ensures ReplaceAll(s, c, text) == (if head == c then text else [head]) + ReplaceAll(tail, c, text)
  {
    assert s[1..] == tail;
  }

  lemma Regroup(a: string, b: string, c: string)
    ensures a + b + c == a + (b + c)
  {
  }

  lemma {:induction false} ReplaceAllConcat(a: string, b: string, c: char, text: string)
    ensures ReplaceAll(a + b, c, text) == ReplaceAll(a, c, text) + ReplaceAll(b, c, text)
  {
    if a == "" {
      assert a + b == b;
    } else {
      hide ReplaceAll;
      ReplaceAllConcat(a[1..], b, c, text);
      ReplaceFirst(a, a[0], a[1..], c, text);
      ReplaceFirst(a + b, a[0], a[1..] + b, c, text);
      Regroup(if a[0] == c then text else [a[0]], ReplaceAll(a[1..], c, text), ReplaceAll(b, c, text));
    }
  }

  lemma {:induction false} ReplaceAllAbsent(s: string, c: char, text: string)
    requires c !in s
    ensures ReplaceAll(s, c, text) == s
  {
    if s == "" {
    } else {
      ReplaceAllAbsent(s[1..], c, text);
    }
  }

  lemma EscapeConcat(a: string, b: string)
    ensures EscapeHtml(a + b) == EscapeHtml(a) + EscapeHtml(b)
  {
    hide ReplaceAll;
    var (a1, b1) := (ReplaceAll(a, '&', "&amp;"), ReplaceAll(b, '&', "&amp;"));
    ReplaceAllConcat(a, b, '&', "&amp;");
    var (a2, b2) := (ReplaceAll(a1, '<', "&lt;"), ReplaceAll(b1, '<', "&lt;"));
    ReplaceAllConcat(a1, b1, '<', "&lt;");
    var (a3, b3) := (ReplaceAll(a2, '>', "&gt;"), ReplaceAll(b2, '>', "&gt;"));
    ReplaceAllConcat(a2, b2, '>', "&gt;");
    var (a4, b4) := (ReplaceAll(a3, '"', "&quot;"), ReplaceAll(b3, '"', "&quot;"));
    ReplaceAllConcat(a3, b3, '"', "&quot;");
    ReplaceAllConcat(a4, b4, '\'', "&#39;");
  }

  lemma ReplaceOne(c: char, text: string)
    ensures ReplaceAll([c], c, text) == text
  {
    assert ReplaceAll([c][1..], c, text) == "";
    assert text + "" == text;
  }

  /** On a single character at most one of the five replaces does anything, in whatever order. */
  lemma EscapeOne(c: char)
    ensures EscapeHtml([c]) == Entity(c)
  {
    hide ReplaceAll;
    var s1 := if c == '&' then "&amp;" else [c];
    assert ReplaceAll([c], '&', "&amp;") == s1 by {
      ReplaceOne('&', "&amp;");
      if c != '&' { ReplaceAllAbsent([c], '&', "&amp;"); }
    }
    var s2 := if c == '<' then "&lt;" else s1;
    assert ReplaceAll(s1, '<', "&lt;") == s2 by {
      ReplaceOne('<', "&lt;");
      if c != '<' { ReplaceAllAbsent(s1, '<', "&lt;"); }
    }
    var s3 := if c == '>' then "&gt;" else s2;
    assert ReplaceAll(s2, '>', "&gt;") == s3 by {
      ReplaceOne('>', "&gt;");
      if c != '>' { ReplaceAllAbsent(s2, '>', "&gt;"); }
    }
    var s4 := if c == '"' then "&quot;" else s3;
    assert ReplaceAll(s3, '"', "&quot;") == s4 by {
      ReplaceOne('"', "&quot;");
      if c != '"' { ReplaceAllAbsent(s3, '"', "&quot;"); }
    }
    var s5 := if c == '\'' then "&#39;" else s4;
    assert ReplaceAll(s4, '\'', "&#39;") == s5 by {
      ReplaceOne('\'', "&#39;");
      if c != '\'' { ReplaceAllAbsent(s4, '\'', "&#39;"); }
    }
  }

  /** The five sequential replaces are one simultaneous per-character substitution. */
  lemma {:induction false} EscapeIsSimultaneous(value: string)
    ensures EscapeHtml(value) == Substituted(value)
  {
    if value != "" {
      hide EscapeHtml, Entity;
      EscapeIsSimultaneous(value[1..]);
      EscapeOne(value[0]);
      EscapeConcat([value[0]], value[1..]);
      assert value == [value[0]] + value[1..];
    } else {
      assert EscapeHtml("") == "";
    }
  }

  /** Escaped text holds no character that could open or close a tag or an attribute value. */
  lemma {:induction false} EscapedIsInert(value: string)
    ensures forall c :: c in Substituted(value) ==> c != '<' && c != '>' && c != '"' && c != '\''
  {
    if value == "" {
    } else {
      EscapedIsInert(value[1..]);
    }
  }

  // ---- decoding ------------------------------------------------------------------------------

  function Lower(c: char): char {
    if 'A' <= c <= 'Z' then (c as int + 32) as char else c
  }

  /** Case-insensitive prefix, as under the regular expression's `i` flag. */
  predicate Begins(s: string, name: string) {
    |name| <= |s| && forall i :: 0 <= i < |name| ==> Lower(s[i]) == name[i]
  }

  /** The length of a named entity at the front of `s`, or 0. */
  function NamedLength(s: string): (n: nat)
    ensures n <= |s|
  {
    if Begins(s, "&gt;") || Begins(s, "&lt;") then 4
    else if Begins(s, "&amp;") || Begins(s, "&#39;") then 5
    else if Begins(s, "&apos;") || Begins(s, "&nbsp;") || Begins(s, "&quot;") then 6
    else 0
  }

  predicate IsHexDigit(c: char) { IsDigit(c) || 'a' <= Lower(c) <= 'f' }

  predicate InBase(c: char, hexadecimal: bool) { if hexadecimal then IsHexDigit(c) else IsDigit(c) }

  /** The length of the longest run of digits at the front of `s`. */
  function DigitRun(s: string, hexadecimal: bool): (n: nat)
    ensures n <= |s| && forall i :: 0 <= i < n ==> InBase(s[i], hexadecimal)
    ensures n < |s| ==> !InBase(s[n], hexadecimal)
  {
    if s != "" && InBase(s[0], hexadecimal) then 1 + DigitRun(s[1..], hexadecimal) else 0
  }

  /** The length of `digits;` after `skip` characters of a reference, or 0. */
  function NumericLength(s: string, skip: nat, hexadecimal: bool): (n: nat)
    requires skip <= |s|
    ensures n <= |s|
  {
    var run := DigitRun(s[skip..], hexadecimal);
    if run > 0 && skip + run < |s| && s[skip + run] == ';' then skip + run + 1 else 0
  }

  /** The length of the match at the front of `s`, or 0; the alternatives are tried in order. */
  function MatchLength(s: string): (n: nat)
    ensures n <= |s|
  {
    if NamedLength(s) > 0 then NamedLength(s)
    else if Begins(s, "&#x") then NumericLength(s, 3, true)
    else if Begins(s, "&#") then NumericLength(s, 2, false)
    else 0
  }

  function HexValue(s: string): nat
    requires forall i :: 0 <= i < |s| ==> IsHexDigit(s[i])
  {
    if s == "" then 0
    else
      16 * HexValue(s[..|s| - 1]) + HexDigitValue(s[|s| - 1])
  }

  function HexDigitValue(c: char): nat
    requires IsHexDigit(c)
  {
    if IsDigit(c) then DigitValue(c) else Lower(c) as int - 'a' as int + 10
  }

  const MAX_SAFE_INTEGER := 0x1F_FFFF_FFFF_FFFF

  datatype Failure = RangeError

  /** What stands for the text of one surrogate, which is no text of scalar values. */
  type Lone = nat -> string

  /** What a numeric reference becomes: `String.fromCodePoint` throws above U+10FFFF, and only there. */
  function FromCodePoint(codePoint: nat, entity: string, lone: Lone): Result<string, Failure> {
    if codePoint == 0 || codePoint > MAX_SAFE_INTEGER then Ok(entity)
    else if codePoint > 0x10FFFF then Err(RangeError)
    else if 0xD800 <= codePoint <= 0xDFFF then Ok(lone(codePoint))
    else Ok([codePoint as char])
  }

  /** What the entity matched at the front of `s` becomes; the table of names is case-sensitive. */
  function Replacement(s: string, lone: Lone): Result<string, Failure>
    requires MatchLength(s) > 0
  {
    var n := MatchLength(s);
    var entity := s[..n];
    if entity == "&amp;" then Ok("&")
    else if entity == "&apos;" || entity == "&#39;" then Ok("'")
    else if entity == "&gt;" then Ok(">")
    else if entity == "&lt;" then Ok("<")
    else if entity == "&nbsp;" then Ok(" ")
    else if entity == "&quot;" then Ok("\"")
    else if NamedLength(s) > 0 then Ok(entity)
    else if Begins(s, "&#x") then FromCodePoint(HexValue(s[3..][..DigitRun(s[3..], true)]), entity, lone)
    else FromCodePoint(Value(s[2..][..DigitRun(s[2..], false)]), entity, lone)
  }

  function Prepended(head: Result<string, Failure>, tail: Result<string, Failure>): Result<string, Failure> {
    if head.Err? then head else if tail.Err? then tail else Ok(head.value + tail.value)
  }

  /** `decodeHtmlEntities`: one scan from left to right, resuming after each match. */
  function Decode(s: string, lone: Lone): Result<string, Failure>
    decreases |s|
  {
    if s == "" then Ok("")
    else
      var n := MatchLength(s);
      if n == 0 then Prepended(Ok([s[0]]), Decode(s[1..], lone))
      else
        Prepended(Replacement(s, lone), Decode(s[n..], lone))
  }

  /** The entity of a special character is matched whole and gives the character back. */
  lemma EntityMatches(c: char, rest: string, lone: Lone)
    requires IsSpecial(c)
    ensures var s := Entity(c) + rest;
      MatchLength(s) == |Entity(c)| && Replacement(s, lone) == Ok([c]) && s[|Entity(c)|..] == rest
  {
    var s := Entity(c) + rest;
    assert s[..|Entity(c)|] == Entity(c);
    assert s[1] == Entity(c)[1];
    assert Begins(s, Entity(c));
    Differs(s, "&gt;", 1);
    Differs(s, "&lt;", 1);
    Differs(s, "&amp;", 1);
    Differs(s, "&#39;", 1);
  }

  /** A character that differs rules a name out. */
  lemma Differs(s: string, name: string, i: nat)
    requires i < |s| && i < |name|
    ensures Lower(s[i]) != name[i] ==> !Begins(s, name)
  {
  }

  lemma NoMatch(s: string)
    requires s != "" && s[0] != '&'
    ensures MatchLength(s) == 0
  {
  }

  lemma DecodeOne(c: char, rest: string, lone: Lone)
    ensures Decode(Entity(c) + rest, lone) == Prepended(Ok([c]), Decode(rest, lone))
  {
    if IsSpecial(c) {
      hide Decode, MatchLength, Entity;
      EntityMatches(c, rest, lone);
      DecodeMatched(Entity(c) + rest, lone);
    } else {
      hide Decode, MatchLength;
      var s := [c] + rest;
      assert s[0] == c && s[1..] == rest;
      NoMatch(s);
      DecodePlain(s, lone);
    }
  }

  lemma DecodeMatched(s: string, lone: Lone)
    requires MatchLength(s) > 0
    ensures Decode(s, lone) == Prepended(Replacement(s, lone), Decode(s[MatchLength(s)..], lone))
  {
    hide MatchLength, Replacement;
  }

  lemma DecodePlain(s: string, lone: Lone)
    requires s != "" && MatchLength(s) == 0
    ensures Decode(s, lone) == Prepended(Ok([s[0]]), Decode(s[1..], lone))
  {
    hide MatchLength, Replacement;
  }

  /** Decoding undoes escaping, for every text, including text that already looks escaped. */
  lemma {:induction false} DecodeOfEscape(value: string, lone: Lone)
    ensures Decode(EscapeHtml(value), lone) == Ok(value)
  {
    EscapeIsSimultaneous(value);
    DecodeOfSubstituted(value, lone);
  }

  lemma {:induction false} DecodeOfSubstituted(value: string, lone: Lone)
    ensures Decode(Substituted(value), lone) == Ok(value)
  {
    if value == "" {
    } else {
      DecodeOfSubstituted(value[1..], lone);
      DecodeOne(value[0], Substituted(value[1..]), lone);
      assert [value[0]] + value[1..] == value;
    }
  }

  // ---- numeric references ----------------------------------------------------------------------

  predicate AllInBase(digits: string, hexadecimal: bool) {
    forall i :: 0 <= i < |digits| ==> InBase(digits[i], hexadecimal)
  }

  function Lead(hexadecimal: bool): string { if hexadecimal then "&#x" else "&#" }

  /** The number that the digits of a reference name, with or without leading zeros. */
  function Named(digits: string, hexadecimal: bool): nat
    requires AllInBase(digits, hexadecimal)
  {
    if hexadecimal then HexValue(digits) else Value(digits)
  }

  /** The text begins with `&#n;` or `&#xn;` (or `&#Xn;`), with `run` digits. */
  predicate BeginsReference(s: string, hexadecimal: bool, run: nat) {
    var skip := |Lead(hexadecimal)|;
    run > 0 && skip + run < |s| && Begins(s, Lead(hexadecimal)) &&
    AllInBase(s[skip..skip + run], hexadecimal) && s[skip + run] == ';'
  }

  /** The number of such a reference. */
  function NumberAt(s: string, hexadecimal: bool, run: nat): nat
    requires BeginsReference(s, hexadecimal, run)
  {
    Named(s[|Lead(hexadecimal)|..|Lead(hexadecimal)| + run], hexadecimal)
  }

  /** The digits end at the semicolon. */
  lemma RunOfReference(s: string, hexadecimal: bool, run: nat)
    requires BeginsReference(s, hexadecimal, run)
    ensures var skip := |Lead(hexadecimal)|;
      DigitRun(s[skip..], hexadecimal) == run && s[skip..][..run] == s[skip..skip + run]
  {
    var skip := |Lead(hexadecimal)|;
    var tail := s[skip..];
    assert tail[..run] == s[skip..skip + run] && tail[run] == ';';
    assert forall i :: 0 <= i < run ==> InBase(tail[..run][i], hexadecimal) && tail[..run][i] == tail[i];
  }

  /** No name but that of the apostrophe begins like a reference. */
  lemma OnlyApostropheIsNamed(s: string, hexadecimal: bool, run: nat)
    requires BeginsReference(s, hexadecimal, run)
    ensures NamedLength(s) > 0 <==> Begins(s, "&#39;")
    ensures Begins(s, "&#39;") ==>
      NamedLength(s) == 5 && !hexadecimal && run == 2 && s[2..4] == "39" && s[..5] == "&#39;"
  {
    assert Lower(s[1]) == Lead(hexadecimal)[1] == '#';
    if hexadecimal {
      assert Lower(s[2]) == Lead(true)[2] == 'x';
      Differs(s, "&#39;", 2);
    }
    Differs(s, "&gt;", 1);
    Differs(s, "&lt;", 1);
    Differs(s, "&amp;", 1);
    Differs(s, "&apos;", 1);
    Differs(s, "&nbsp;", 1);
    Differs(s, "&quot;", 1);
    if Begins(s, "&#39;") {
      FiveCharacters(s);
      var digits := s[2..2 + run];
      assert forall i :: 0 <= i < run ==> InBase(digits[i], false) && digits[i] != ';';
      assert digits == s[2..][..run] && s[2..][2] == ';';
    }
  }

  lemma FiveCharacters(s: string)
    requires Begins(s, "&#39;")
    ensures s[..5] == "&#39;" && s[2..4] == "39" && s[3] == '9' && s[4] == ';'
  {
    assert "&#39;"[0] == '&' && "&#39;"[1] == '#' && "&#39;"[2] == '3' && "&#39;"[3] == '9' && "&#39;"[4] == ';';
    assert Lower(s[0]) == '&' && Lower(s[1]) == '#' && Lower(s[2]) == '3' && Lower(s[3]) == '9' && Lower(s[4]) == ';';
  }

  lemma ValueOf39()
    ensures Value("39") == 39
  {
    assert "39"[..1] == "3" && "3"[..0] == "";
  }

  lemma ReferenceLength(s: string, hexadecimal: bool, run: nat)
    requires BeginsReference(s, hexadecimal, run) && !Begins(s, "&#39;")
    ensures NamedLength(s) == 0 && MatchLength(s) == |Lead(hexadecimal)| + run + 1
  {
    OnlyApostropheIsNamed(s, hexadecimal, run);
    RunOfReference(s, hexadecimal, run);
    LeadOfReference(s, hexadecimal, run);
    hide NamedLength, DigitRun;
  }

  /** Only one name in the table has a number sign. */
  lemma NoNameInTable(entity: string)
    requires |entity| >= 2 && entity[1] == '#'
    ensures entity !in {"&amp;", "&apos;", "&gt;", "&lt;", "&nbsp;", "&quot;"}
  {
  }

  /** A reference is matched whole and becomes what its number stands for. */
  lemma ReferenceMatches(s: string, hexadecimal: bool, run: nat, lone: Lone)
    requires BeginsReference(s, hexadecimal, run)
    ensures var n := |Lead(hexadecimal)| + run + 1;
      MatchLength(s) == n && Replacement(s, lone) == FromCodePoint(NumberAt(s, hexadecimal, run), s[..n], lone)
  {
    assert Lower(s[1]) == Lead(hexadecimal)[1] == '#';
    if Begins(s, "&#39;") {
      OnlyApostropheIsNamed(s, hexadecimal, run);
      ValueOf39();
      hide Begins, NamedLength, Value;
    } else {
      ReferenceLength(s, hexadecimal, run);
      RunOfReference(s, hexadecimal, run);
      LeadOfReference(s, hexadecimal, run);
      NoNameInTable(s[..MatchLength(s)]);
      ApostrophePrefix(s, MatchLength(s));
      hide Begins, NamedLength, MatchLength, DigitRun, Value, HexValue;
    }
  }

  lemma ApostrophePrefix(s: string, n: nat)
    requires n <= |s|
    ensures s[..n] == "&#39;" ==> Begins(s, "&#39;")
  {
    if s[..n] == "&#39;" {
      assert forall i :: 0 <= i < 5 ==> s[i] == "&#39;"[i];
    }
  }

  lemma LeadOfReference(s: string, hexadecimal: bool, run: nat)
    requires BeginsReference(s, hexadecimal, run)
    ensures (Begins(s, "&#x") <==> hexadecimal) && (!hexadecimal ==> Begins(s, "&#"))
  {
    if !hexadecimal {
      assert IsDigit(s[2..2 + run][0]);
      Differs(s, "&#x", 2);
    }
  }

  /** Whatever is matched without being a name is a reference. */
  lemma MatchIsReference(s: string) returns (hexadecimal: bool, run: nat)
    requires MatchLength(s) > 0 && NamedLength(s) == 0
    ensures BeginsReference(s, hexadecimal, run)
  {
    hexadecimal := Begins(s, "&#x");
    var skip := |Lead(hexadecimal)|;
    run := DigitRun(s[skip..], hexadecimal);
    assert s[skip..skip + run] == s[skip..][..run];
  }

  /**
   A decimal or hexadecimal reference becomes the character it names: it stays as it is for 0 and for
   numbers beyond 2^53 - 1, and makes the whole decoding throw for other numbers above U+10FFFF.
   */
  lemma NumericReference(s: string, hexadecimal: bool, run: nat, lone: Lone)
    requires BeginsReference(s, hexadecimal, run)
    ensures var n := |Lead(hexadecimal)| + run + 1;
      Decode(s, lone) == Prepended(FromCodePoint(NumberAt(s, hexadecimal, run), s[..n], lone), Decode(s[n..], lone))
  {
    hide MatchLength, Replacement, Decode;
    ReferenceMatches(s, hexadecimal, run, lone);
    DecodeMatched(s, lone);
  }

  lemma DecimalReference(digits: string, rest: string, lone: Lone)
    requires AllDigits(digits) && digits != ""
    ensures var entity := "&#" + digits + ";";
      Decode(entity + rest, lone) == Prepended(FromCodePoint(Value(digits), entity, lone), Decode(rest, lone))
  {
    hide Decode;
    var s := "&#" + digits + ";" + rest;
    assert s[..2] == "&#" && s[2..2 + |digits|] == digits && s[2 + |digits|] == ';';
    assert s[..2 + |digits| + 1] == "&#" + digits + ";" && s[2 + |digits| + 1..] == rest;
    assert s[0] == '&' && s[1] == '#';
    NumericReference(s, false, |digits|, lone);
  }

  lemma HexReference(digits: string, rest: string, x: char, lone: Lone)
    requires digits != "" && (forall i :: 0 <= i < |digits| ==> IsHexDigit(digits[i])) && Lower(x) == 'x'
    ensures var entity := "&#" + [x] + digits + ";";
      Decode(entity + rest, lone) == Prepended(FromCodePoint(HexValue(digits), entity, lone), Decode(rest, lone))
  {
    hide Decode;
    var s := "&#" + [x] + digits + ";" + rest;
    assert s[3..3 + |digits|] == digits && s[3 + |digits|] == ';';
    assert s[..3 + |digits| + 1] == "&#" + [x] + digits + ";" && s[3 + |digits| + 1..] == rest;
    assert s[0] == '&' && s[1] == '#' && s[2] == x;
    NumericReference(s, true, |digits|, lone);
  }

  // ---- when decoding throws --------------------------------------------------------------------

  /** Above U+10FFFF, yet not left alone. */
  predicate NoCharacter(n: nat) { 0x110000 <= n <= MAX_SAFE_INTEGER }

  /** The text begins with a reference to such a number. */
  ghost predicate BeginsBadReference(s: string) {
    exists hexadecimal: bool, run: nat ::
      BeginsReference(s, hexadecimal, run) && NoCharacter(NumberAt(s, hexadecimal, run))
  }

  lemma BadReferenceFails(s: string, hexadecimal: bool, run: nat, lone: Lone)
    requires BeginsReference(s, hexadecimal, run)
    ensures MatchLength(s) > 0
    ensures Replacement(s, lone).Err? <==> NoCharacter(NumberAt(s, hexadecimal, run))
  {
    hide MatchLength, Replacement, BeginsReference, NumberAt;
    ReferenceMatches(s, hexadecimal, run, lone);
  }

  lemma OnlyReferencesFail(s: string, lone: Lone)
    requires MatchLength(s) > 0 && Replacement(s, lone).Err?
    ensures NamedLength(s) == 0
  {
    hide Begins, DigitRun, MatchLength, NamedLength;
  }

  /** The matches that make the decoding throw are the bad references. */
  lemma BadMatch(s: string, lone: Lone)
    ensures BeginsBadReference(s) <==> MatchLength(s) > 0 && Replacement(s, lone).Err?
  {
    hide MatchLength, Replacement, BeginsReference, NoCharacter, NamedLength, NumberAt;
    if BeginsBadReference(s) {
      var hexadecimal, run :| BeginsReference(s, hexadecimal, run) && NoCharacter(NumberAt(s, hexadecimal, run));
      BadReferenceFails(s, hexadecimal, run, lone);
    }
    if MatchLength(s) > 0 && Replacement(s, lone).Err? {
      OnlyReferencesFail(s, lone);
      var hexadecimal, run := MatchIsReference(s);
      BadReferenceFails(s, hexadecimal, run, lone);
    }
  }

  /** A match holds no second ampersand, so the scan does not step over the beginning of another one. */
  lemma OneAmpersand(s: string, i: nat)
    requires 0 < i < MatchLength(s)
    ensures s[i] != '&'
  {
    if NamedLength(s) > 0 {
      hide Begins, NamedLength;
      NoAmpersandInName(s, i);
    } else {
      hide MatchLength, Replacement, NamedLength, BeginsReference, Begins;
      var hexadecimal, run := MatchIsReference(s);
      OnlyApostropheIsNamed(s, hexadecimal, run);
      ReferenceLength(s, hexadecimal, run);
      NoAmpersandInReference(s, hexadecimal, run, i);
    }
  }

  lemma NoAmpersandInReference(s: string, hexadecimal: bool, run: nat, i: nat)
    requires BeginsReference(s, hexadecimal, run) && 0 < i <= |Lead(hexadecimal)| + run
    ensures s[i] != '&'
  {
    var skip := |Lead(hexadecimal)|;
    if i < skip {
      assert Lower(s[i]) == Lead(hexadecimal)[i];
    } else if i < skip + run {
      var digits := s[skip..skip + run];
      assert digits[i - skip] == s[i] && InBase(digits[i - skip], hexadecimal);
    }
  }

  lemma NoAmpersandInName(s: string, i: nat)
    requires 0 < i < NamedLength(s)
    ensures s[i] != '&'
  {
    var name :=
      if Begins(s, "&gt;") then "&gt;" else if Begins(s, "&lt;") then "&lt;" else if Begins(s, "&amp;") then "&amp;"
      else if Begins(s, "&#39;") then "&#39;" else if Begins(s, "&apos;") then "&apos;"
      else if Begins(s, "&nbsp;") then "&nbsp;" else "&quot;";
    assert Begins(s, name) && i < |name|;
    assert Lower(s[i]) == name[i] != '&';
  }

  /** A text without a match at its front has no bad reference there. */
  lemma BadBeginsWithAmpersand(s: string)
    requires s != "" && s[0] != '&'
    ensures !BeginsBadReference(s)
  {
    if hexadecimal: bool, run: nat :| BeginsReference(s, hexadecimal, run) {
      assert Lower(s[0]) == Lead(hexadecimal)[0];
    }
  }

  ghost predicate HoldsBadReference(s: string) {
    exists i :: 0 <= i < |s| && BeginsBadReference(s[i..])
  }

  /** A bad reference lies at the front, or behind what the scan takes in one step. */
  lemma BadHereOrLater(s: string, n: nat)
    requires 0 < n <= |s| && forall i :: 0 < i < n ==> s[i] != '&'
    ensures HoldsBadReference(s) <==> BeginsBadReference(s) || HoldsBadReference(s[n..])
  {
    hide BeginsBadReference;
    assert s[0..] == s;
    if HoldsBadReference(s) {
      var i :| 0 <= i < |s| && BeginsBadReference(s[i..]);
      if 0 < i < n {
        BadBeginsWithAmpersand(s[i..]);
      } else if n <= i {
        assert s[n..][i - n..] == s[i..];
      }
    }
    if HoldsBadReference(s[n..]) {
      var i :| 0 <= i < |s[n..]| && BeginsBadReference(s[n..][i..]);
      assert s[n..][i..] == s[n + i..];
    }
  }

  /**
   Decoding throws exactly when somewhere in the text a decimal or hexadecimal reference names a number
   from 0x110000 to 2^53 - 1; every other text has a decoding.
   */
  lemma {:induction false} DecodingThrowsExactly(s: string, lone: Lone)
    ensures Decode(s, lone).Err? <==> HoldsBadReference(s)
    decreases |s|
  {
    if s == "" {
    } else {
      BadMatch(s, lone);
      hide Decode, MatchLength, Replacement, HoldsBadReference, BeginsBadReference;
      var n := MatchLength(s);
      if n == 0 {
        DecodePlain(s, lone);
        DecodingThrowsExactly(s[1..], lone);
        BadHereOrLater(s, 1);
      } else {
        DecodeMatched(s, lone);
        DecodingThrowsExactly(s[n..], lone);
        forall i | 0 < i < n ensures s[i] != '&' { OneAmpersand(s, i); }
        BadHereOrLater(s, n);
      }
    }
  }

  lemma NextDigit(s: string, i: nat)
    requires i < |s| && AllDigits(s)
    ensures Value(s[..i + 1]) == 10 * Value(s[..i]) + DigitValue(s[i])
  {
    assert s[..i + 1][..i] == s[..i];
  }

  /** 1114112 is 0x110000, the first number that is not that of a character. */
  lemma ValueOf1114112(s: string)
    requires s == "1114112"
    ensures AllDigits(s) && Value(s) == 0x110000
  {
    assert AllDigits(s) && Value(s[..0]) == 0;
    hide Value, AllDigits;
    NextDigit(s, 0);
    NextDigit(s, 1);
    NextDigit(s, 2);
    NextDigit(s, 3);
    NextDigit(s, 4);
    NextDigit(s, 5);
    NextDigit(s, 6);
    assert s == s[..7];
  }

  lemma FirstBadReferenceThrows(lone: Lone)
    ensures Decode("&#1114112;", lone) == Err(RangeError)
  {
    hide Decode, Value;
    ValueOf1114112("1114112");
    assert "&#1114112;" == "&#" + "1114112" + ";" + "";
    DecimalReference("1114112", "", lone);
  }

  // ---- named references --------------------------------------------------------------------------------

  /** A name in lower case stands for its character, and in any other spelling for itself. */
  lemma NamedReference(entity: string, character: char, rest: string, lone: Lone)
    requires (entity, character) in {("&amp;", '&'), ("&apos;", '\''), ("&gt;", '>'), ("&lt;", '<'), ("&nbsp;", ' '),
                                     ("&quot;", '"'), ("&#39;", '\'')}
    ensures Decode(entity + rest, lone) == Prepended(Ok([character]), Decode(rest, lone))
  {
    hide Decode;
    var s := entity + rest;
    NameMatches(entity, rest);
    DecodeMatched(s, lone);
    hide MatchLength;
    assert s[..|entity|] == entity && s[|entity|..] == rest;
  }

  lemma NameMatches(entity: string, rest: string)
    requires entity in {"&amp;", "&apos;", "&gt;", "&lt;", "&nbsp;", "&quot;", "&#39;"}
    ensures NamedLength(entity + rest) == |entity|
  {
    var s := entity + rest;
    assert forall i :: 0 <= i < |entity| ==> s[i] == entity[i];
    assert Begins(s, entity);
    Differs(s, "&gt;", 1);
    Differs(s, "&lt;", 1);
    Differs(s, "&amp;", 1);
    Differs(s, "&#39;", 1);
    Differs(s, "&apos;", 1);
    Differs(s, "&nbsp;", 1);
    Differs(s, "&quot;", 1);
    Differs(s, "&amp;", 2);
    Differs(s, "&apos;", 2);
  }

  // ---- hexadecimal numerals ------------------------------------------------------------------------------

  /** The hexadecimal numeral of a number. */
  function HexNumeral(n: nat): (s: string)
    ensures s != ""
  {
    if n < 16 then ["0123456789abcdef"[n]] else HexNumeral(n / 16) + ["0123456789abcdef"[n % 16]]
  }

  lemma HexDigits(c: char)
    ensures IsHexDigit(c) <==> c in "0123456789abcdefABCDEF"
    ensures IsHexDigit(c) ==>
      HexDigitValue(c) < 16 && ("0123456789abcdef"[HexDigitValue(c)] == c || "0123456789ABCDEF"[HexDigitValue(c)] == c)
  {
    var all := "0123456789abcdefABCDEF";
    assert all[0] == '0' && all[1] == '1' && all[2] == '2' && all[3] == '3' && all[4] == '4' && all[5] == '5';
    assert all[6] == '6' && all[7] == '7' && all[8] == '8' && all[9] == '9' && all[10] == 'a' && all[11] == 'b';
    assert all[12] == 'c' && all[13] == 'd' && all[14] == 'e' && all[15] == 'f' && all[16] == 'A' && all[17] == 'B';
    assert all[18] == 'C' && all[19] == 'D' && all[20] == 'E' && all[21] == 'F';
  }

  /** Reading a numeral gives the number, whatever the case of its letters. */
  lemma {:induction false} ValueOfHexNumeral(n: nat, s: string)
    requires |s| == |HexNumeral(n)| && forall i :: 0 <= i < |s| ==> Lower(s[i]) == HexNumeral(n)[i]
    ensures AllInBase(s, true) && HexValue(s) == n
  {
    var last := |s| - 1;
    assert HexNumeral(n)[last] == "0123456789abcdef"[n % 16];
    LastHexDigit(n, s[last]);
    if n < 16 {
      assert s[..last] == "" && HexValue("") == 0;
    } else {
      assert HexNumeral(n)[..last] == HexNumeral(n / 16);
      hide HexNumeral, Lower, IsHexDigit, HexDigitValue;
      ValueOfHexNumeral(n / 16, s[..last]);
      assert n == 16 * (n / 16) + n % 16;
      assert forall i :: 0 <= i < last ==> s[..last][i] == s[i];
    }
  }

  lemma LastHexDigit(n: nat, c: char)
    requires Lower(c) == "0123456789abcdef"[n % 16]
    ensures IsHexDigit(c) && HexDigitValue(c) == n % 16
  {
  }

  /** A reference stands for the character of its number, and for itself if its number is 0 or beyond 2^53 - 1. */
  lemma CodePointMeans(n: nat, entity: string, lone: Lone)
    ensures 1 <= n <= 0xD7FF || 0xE000 <= n <= 0x10FFFF ==> FromCodePoint(n, entity, lone) == Ok([n as char])
    ensures 0xD800 <= n <= 0xDFFF ==> FromCodePoint(n, entity, lone) == Ok(lone(n))
    ensures 0x110000 <= n <= 9_007_199_254_740_991 ==> FromCodePoint(n, entity, lone).Err?
    ensures n == 0 || n > 9_007_199_254_740_991 ==> FromCodePoint(n, entity, lone) == Ok(entity)
  {
  }

  /** A name in capitals is recognised but has no character: it stays. */
  lemma NameInCapitalsStays(rest: string, lone: Lone)
    ensures Decode("&AMP;" + rest, lone) == Prepended(Ok("&AMP;"), Decode(rest, lone))
  {
    hide Decode;
    var s := "&AMP;" + rest;
    assert s[0] == '&' && s[1] == 'A' && s[2] == 'M' && s[3] == 'P' && s[4] == ';';
    assert Begins(s, "&amp;");
    Differs(s, "&gt;", 1);
    Differs(s, "&lt;", 1);
    DecodeMatched(s, lone);
    assert s[..5] == "&AMP;" && s[5..] == rest;
    hide MatchLength;
  }
}
