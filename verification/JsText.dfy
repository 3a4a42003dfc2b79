/** `String.prototype.trim` on ECMAScript white space and line terminators. */
module JsText {
  predicate IsSpace(c: char) {
    var code := c as int;
    9 <= code <= 13 || code in {0x20, 0xa0, 0x1680, 0x2028, 0x2029, 0x202f, 0x205f, 0x3000, 0xfeff} ||
    0x2000 <= code <= 0x200a
  }

  /** The white space and line terminators of sections 12.2 and 12.3 of ECMA-262, one by one. */
  lemma SpacesAre(c: char)
    ensures IsSpace(c) <==> c as int in {
      0x9, 0xa, 0xb, 0xc, 0xd, 0x20, 0xa0, 0x1680, 0x2000, 0x2001, 0x2002, 0x2003, 0x2004, 0x2005, 0x2006, 0x2007,
      0x2008, 0x2009, 0x200a, 0x2028, 0x2029, 0x202f, 0x205f, 0x3000, 0xfeff}
  {
  }

  function TrimStart(s: string): string {
    if s != [] && IsSpace(s[0]) then TrimStart(s[1..]) else s
  }

  function TrimEnd(s: string): string {
    if s != [] && IsSpace(s[|s| - 1]) then TrimEnd(s[..|s| - 1]) else s
  }

  function Trim(s: string): string { TrimEnd(TrimStart(s)) }

  /** No white space at either end. */
  predicate Trimmed(s: string) {
    s == [] || (!IsSpace(s[0]) && !IsSpace(s[|s| - 1]))
  }

  lemma {:induction false} TrimEndKeepsFirst(s: string)
    requires s == [] || !IsSpace(s[0])
    ensures var t := TrimEnd(s); t == [] || (!IsSpace(t[0]) && !IsSpace(t[|t| - 1]))
  {
    if s == [] || !IsSpace(s[|s| - 1]) {
    } else {
      TrimEndKeepsFirst(s[..|s| - 1]);
    }
  }

  lemma {:induction false} TrimStartResult(s: string)
    ensures var t := TrimStart(s); t == [] || !IsSpace(t[0])
  {
    if s == [] || !IsSpace(s[0]) {
    } else {
      TrimStartResult(s[1..]);
    }
  }

  lemma TrimResult(s: string)
    ensures Trimmed(Trim(s))
  {
    TrimStartResult(s);
    TrimEndKeepsFirst(TrimStart(s));
  }

  lemma TrimOfTrimmed(s: string)
    requires Trimmed(s)
    ensures Trim(s) == s
  {
  }
}
