/**
 Search patterns of `src/lib/admin-search-query.ts`, against the pattern language of
 PostgreSQL's LIKE with backslash as escape character (section 9.7.1 of its manual).
 `fold` is the identity for LIKE and a case mapping for ILIKE.
 */
module SearchPattern {
  import opened Wrappers

  predicate IsSpecial(c: char) { c == '\\' || c == '%' || c == '_' }

  /** `escapeAdminSearchLikePattern`: every special character gets a backslash in front. */
  function Escape(value: string): string {
    if value == "" then "" else EscapedChar(value[0]) + Escape(value[1..])
  }

  function EscapedChar(c: char): string { if IsSpecial(c) then ['\\', c] else [c] }

  /** `getAdminSearchLikePattern`. */
  function LikePattern(value: string): string { "%" + Escape(value) + "%" }

  // ---- LIKE ------------------------------------------------------------------------------

  datatype Token = AnyString | AnyChar | Literal(c: char)

  /** The tokens of a pattern; a backslash at its very end is an error. */
  function Tokens(pattern: string): Option<seq<Token>> {
    if pattern == "" then Some([])
    else if pattern[0] == '\\' then
      if |pattern| == 1 then None else Prepend(Literal(pattern[1]), Tokens(pattern[2..]))
    else
      Prepend(if pattern[0] == '%' then AnyString else if pattern[0] == '_' then AnyChar else Literal(pattern[0]),
              Tokens(pattern[1..]))
  }

  function Prepend(t: Token, rest: Option<seq<Token>>): Option<seq<Token>> {
    if rest.None? then None else Some([t] + rest.value)
  }

  /** The whole text has to match the whole pattern. */
  predicate Matches(tokens: seq<Token>, text: string, fold: char -> char)
    decreases |tokens| + |text|
  {
    if tokens == [] then text == ""
    else
      match tokens[0]
      case AnyString => Matches(tokens[1..], text, fold) || (text != "" && Matches(tokens, text[1..], fold))
      case AnyChar => text != "" && Matches(tokens[1..], text[1..], fold)
      case Literal(c) => text != "" && fold(text[0]) == fold(c) && Matches(tokens[1..], text[1..], fold)
  }

  /** The value of `text LIKE pattern`; `None` is PostgreSQL's error. */
  function Like(text: string, pattern: string, fold: char -> char): Option<bool> {
    var tokens := Tokens(pattern);
    if tokens.None? then None else Some(Matches(tokens.value, text, fold))
  }

  // ---- literal occurrence ------------------------------------------------------------------

  predicate StartsWith(text: string, value: string, fold: char -> char) {
    |value| <= |text| && forall k :: 0 <= k < |value| ==> fold(text[k]) == fold(value[k])
  }

  predicate Occurs(text: string, value: string, fold: char -> char) {
    exists i :: 0 <= i <= |text| && StartsWith(text[i..], value, fold)
  }

  function Literals(value: string): (tokens: seq<Token>)
    ensures |tokens| == |value|
  {
    if value == "" then [] else [Literal(value[0])] + Literals(value[1..])
  }

  /** One escaped character in front of any pattern is one literal token. */
  lemma {:induction false} EscapedHead(c: char, rest: string)
    ensures Tokens(EscapedChar(c) + rest) == Prepend(Literal(c), Tokens(rest))
  {
    if IsSpecial(c) {
      assert (['\\', c] + rest)[2..] == rest;
    } else {
      assert ([c] + rest)[1..] == rest;
    }
  }

  lemma LiteralsCons(value: string, tokens: seq<Token>)
    requires value != ""
    ensures Literals(value) + tokens == [Literal(value[0])] + (Literals(value[1..]) + tokens)
  {
  }

  lemma EscapeCons(value: string, rest: string)
    requires value != ""
    ensures Escape(value) + rest == EscapedChar(value[0]) + (Escape(value[1..]) + rest)
  {
  }

  lemma {:induction false} EscapedTokens(value: string, rest: string)
    requires Tokens(rest).Some?
    ensures Tokens(Escape(value) + rest) == Some(Literals(value) + Tokens(rest).value)
  {
    hide Tokens;
    if value == "" {
      assert Escape(value) + rest == rest;
      assert Literals(value) + Tokens(rest).value == Tokens(rest).value;
    } else {
      hide Escape, Literals, EscapedChar;
      EscapedTokens(value[1..], rest);
      EscapeCons(value, rest);
      EscapedHead(value[0], Escape(value[1..]) + rest);
      LiteralsCons(value, Tokens(rest).value);
    }
  }

  lemma {:induction false} PrefixMatch(value: string, text: string, fold: char -> char)
    ensures Matches(Literals(value) + [AnyString], text, fold) <==> StartsWith(text, value, fold)
  {
    var tokens := Literals(value) + [AnyString];
    if value == "" {
      assert tokens == [AnyString];
      AnyMatches(text, fold);
    } else if text != "" {
      assert tokens[1..] == Literals(value[1..]) + [AnyString];
      PrefixMatch(value[1..], text[1..], fold);
      assert StartsWith(text, value, fold) <==>
        fold(text[0]) == fold(value[0]) && StartsWith(text[1..], value[1..], fold) by {
        if fold(text[0]) == fold(value[0]) && StartsWith(text[1..], value[1..], fold) {
          forall k | 0 <= k < |value| ensures fold(text[k]) == fold(value[k]) {
            if k > 0 { assert text[k] == text[1..][k - 1] && value[k] == value[1..][k - 1]; }
          }
        }
        if StartsWith(text, value, fold) {
          assert forall k :: 0 <= k < |value| - 1 ==> text[1..][k] == text[k + 1] && value[1..][k] == value[k + 1];
        }
      }
    }
  }

  lemma {:induction false} AnyMatches(text: string, fold: char -> char)
    ensures Matches([AnyString], text, fold)
  {
    assert [AnyString][1..] == [];
    if text == "" {
    } else {
      AnyMatches(text[1..], fold);
    }
  }

  lemma {:induction false} AnywhereMatch(value: string, text: string, fold: char -> char)
    ensures Matches([AnyString] + Literals(value) + [AnyString], text, fold) <==> Occurs(text, value, fold)
  {
    var tokens := [AnyString] + Literals(value) + [AnyString];
    assert tokens[1..] == Literals(value) + [AnyString];
    PrefixMatch(value, text, fold);
    assert text[0..] == text;
    if text == "" {
    } else {
      AnywhereMatch(value, text[1..], fold);
      if Occurs(text[1..], value, fold) {
        var i :| 0 <= i <= |text| - 1 && StartsWith(text[1..][i..], value, fold);
        assert text[1..][i..] == text[i + 1..];
      }
      if Occurs(text, value, fold) {
        var i :| 0 <= i <= |text| && StartsWith(text[i..], value, fold);
        if i > 0 { assert text[1..][i - 1..] == text[i..]; }
      }
    }
  }

  /**
   The pattern built from any value, including one made of `%`, `_` and backslashes, never
   raises the pattern error and matches exactly the texts in which the value occurs literally.
   */
  lemma PatternMeansSubstring(text: string, value: string, fold: char -> char)
    ensures Like(text, LikePattern(value), fold) == Some(Occurs(text, value, fold))
  {
    assert "%"[1..] == "" && [AnyString] + [] == [AnyString];
    assert Tokens("%") == Some([AnyString]);
    EscapedTokens(value, "%");
    assert LikePattern(value)[1..] == Escape(value) + "%";
    assert Tokens(LikePattern(value)) == Some([AnyString] + (Literals(value) + [AnyString]));
    assert [AnyString] + (Literals(value) + [AnyString]) == [AnyString] + Literals(value) + [AnyString];
    AnywhereMatch(value, text, fold);
  }

  /** The two wildcards: `_` is any one character, `%` any text. */
  lemma WildcardsMean(text: string, fold: char -> char)
    ensures Like(text, "_", fold) == Some(|text| == 1)
    ensures Like(text, "%", fold) == Some(true)
  {
    assert Tokens("") == Some([]);
    OneToken("_");
    OneToken("%");
    assert Tokens("_") == Some([AnyChar]) && Tokens("%") == Some([AnyString]);
    AnythingMatches(text, fold);
    assert [AnyChar][1..] == [];
    if text != "" {
      assert Matches([AnyChar], text, fold) == Matches([], text[1..], fold) == (text[1..] == "");
      assert |text[1..]| == |text| - 1;
    }
  }

  lemma {:induction false} AnythingMatches(text: string, fold: char -> char)
    ensures Matches([AnyString], text, fold)
  {
    if text == "" {
    } else {
      AnythingMatches(text[1..], fold);
    }
  }

  lemma OneToken(pattern: string)
    requires pattern == "_" || pattern == "%"
    ensures Tokens(pattern) == Some([if pattern == "%" then AnyString else AnyChar])
  {
    var token := if pattern == "%" then AnyString else AnyChar;
    assert pattern[1..] == "" && Tokens(pattern[1..]) == Some([]) && [token] + [] == [token];
  }
}
