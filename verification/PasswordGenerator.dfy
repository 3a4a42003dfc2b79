/** The generator of `src/lib/browser-password.ts`: picks, the swap loop in place, and validity. */
module PasswordGenerator {
  import opened JsNumber
  import opened Wrappers
  import opened Permutations
  import opened BrowserPassword

  const CAPITALS: string := "ABCDEFGHIJKLMNOPQRSTUVWXYZ"
  const SMALLS: string := "abcdefghijklmnopqrstuvwxyz"
  const NUMBERS: string := "0123456789"
  const SYMBOLS: string := "!@#$%^&*_-+=?"

  /** The sets characters are picked from. */
  datatype CharSet = Letters | Numbers | Symbols | All

  function CharsOf(c: CharSet): (s: string)
    ensures 0 < |s| <= 75
  {
    match c
    case Letters => CAPITALS + SMALLS
    case Numbers => NUMBERS
    case Symbols => SYMBOLS
    case All => CAPITALS + SMALLS + NUMBERS + SYMBOLS
  }

  predicate IsLetter(c: char) { 'A' <= c <= 'Z' || 'a' <= c <= 'z' }

  predicate IsNumber(c: char) { '0' <= c <= '9' }

  predicate IsSymbol(c: char) { !IsLetter(c) && !IsNumber(c) }

  /** `isBrowserPasswordValid`. */
  predicate IsBrowserPasswordValid(value: string) {
    && MIN_LENGTH <= |value| <= MAX_LENGTH
    && (exists i :: 0 <= i < |value| && IsLetter(value[i]))
    && (exists i :: 0 <= i < |value| && IsNumber(value[i]))
    && (exists i :: 0 <= i < |value| && IsSymbol(value[i]))
  }

  predicate AllLetters(s: string) { forall i :: 0 <= i < |s| ==> IsLetter(s[i]) }

  lemma CapitalsAreLetters()
    ensures AllLetters(CAPITALS)
  {
  }

  lemma SmallsAreLetters()
    ensures AllLetters(SMALLS)
  {
  }

  lemma NumbersAndSymbols()
    ensures forall i :: 0 <= i < |NUMBERS| ==> IsNumber(NUMBERS[i])
    ensures forall i :: 0 <= i < |SYMBOLS| ==> IsSymbol(SYMBOLS[i])
  {
  }

  lemma PickedFrom(c: CharSet, x: char)
    requires x in CharsOf(c)
    ensures c.Letters? ==> IsLetter(x)
    ensures c.Numbers? ==> IsNumber(x)
    ensures c.Symbols? ==> IsSymbol(x)
  {
    CapitalsAreLetters();
    SmallsAreLetters();
    NumbersAndSymbols();
  }

  datatype GenerationError = InvalidLength | SecureRandomUnavailable

  /** A permutation of characters is as valid as the characters it permutes. */
  lemma ValidityIsOrderless(a: string, b: string)
    requires multiset(a) == multiset(b)
    ensures IsBrowserPasswordValid(a) ==> IsBrowserPasswordValid(b)
  {
    SameLength(a, b);
    if IsBrowserPasswordValid(a) {
      var i :| 0 <= i < |a| && IsLetter(a[i]);
      var j :| 0 <= j < |a| && IsNumber(a[j]);
      var k :| 0 <= k < |a| && IsSymbol(a[k]);
      assert a[i] in multiset(a) && a[j] in multiset(a) && a[k] in multiset(a);
      assert a[i] in b && a[j] in b && a[k] in b;
    }
  }

  // ---- what the generator computes from the random words ---------------------------------------

  function NextDraw(random: Source, from: nat, max: nat): (d: Option<Draw>)
    requires max > 0
    ensures d.Some? ==> d.value.index < max && d.value.next > from
  {
    Drawn(random, from, max, MAX_REJECTION_ATTEMPTS)
  }

  datatype Picked = Picked(chars: string, next: nat)

  /** One character from each set, in order. */
  function Picks(random: Source, sets: seq<CharSet>): (p: Option<Picked>)
    ensures p.Some? ==> |p.value.chars| == |sets|
  {
    if sets == [] then Some(Picked("", 0))
    else
      var front := Picks(random, sets[..|sets| - 1]);
      if front.None? then None else PickNext(random, front.value, sets[|sets| - 1])
  }

  function PickNext(random: Source, so: Picked, c: CharSet): (p: Option<Picked>)
    ensures p.Some? ==> |p.value.chars| == |so.chars| + 1
  {
    var d := NextDraw(random, so.next, |CharsOf(c)|);
    if d.None? then None else Some(Picked(so.chars + [CharsOf(c)[d.value.index]], d.value.next))
  }

  /** A letter, a number, a symbol, then anything. */
  function SetsFor(length: nat): seq<CharSet>
    requires length >= 3
  {
    [Letters, Numbers, Symbols] + seq(length - 3, _ => All)
  }

  lemma OneMoreSet(n: nat)
    requires n >= 3
    ensures SetsFor(n + 1) == SetsFor(n) + [All] && SetsFor(n + 1)[..n] == SetsFor(n)
  {
  }

  datatype Swaps = Swaps(draws: seq<nat>, next: nat)

  /** The swap indices for the positions `n` down to 1. */
  function SwapDraws(random: Source, from: nat, n: nat): (r: Option<Swaps>)
    ensures r.Some? ==> |r.value.draws| == n && ValidDraws(r.value.draws)
    decreases n
  {
    if n == 0 then Some(Swaps([], from))
    else
      var d := NextDraw(random, from, n + 1);
      if d.None? then None
      else
        var rest := SwapDraws(random, d.value.next, n - 1);
        if rest.None? then None else Some(Swaps([d.value.index] + rest.value.draws, rest.value.next))
  }

  /** The password made of the given random words. */
  function Generated(random: Source, length: nat): Option<string>
    requires length >= 3
  {
    var picks := Picks(random, SetsFor(length));
    if picks.None? then None
    else
      var swaps := SwapDraws(random, picks.value.next, length - 1);
      if swaps.None? then None else Some(Shuffled(picks.value.chars, swaps.value.draws))
  }

  lemma {:induction false} PicksStayExhausted(random: Source, n: nat, length: nat)
    requires 3 <= n <= length
    ensures Picks(random, SetsFor(n)).None? ==> Picks(random, SetsFor(length)).None?
    decreases length
  {
    hide PickNext, SetsFor;
    if n == length {
    } else {
      PicksStayExhausted(random, n, length - 1);
      OneMoreSet(length - 1);
    }
  }

  /** One character of a set, or nothing when the random source is exhausted. */
  method Pick(random: Source, so: Picked, c: CharSet) returns (picked: Option<Picked>)
    ensures picked == PickNext(random, so, c)
    ensures picked.None? ==> !NeverExhausted(random)
    ensures picked.Some? ==> exists x :: x in CharsOf(c) && picked.value.chars == so.chars + [x]
  {
    hide Drawn, NeverExhausted, WordsFor, Accepts, CharsOf;
    var chars := CharsOf(c);
    var index, used := GetUnbiasedRandomIndex(random, so.next, |chars|);
    if index.None? {
      return None;
    }
    assert chars[index.value] in CharsOf(c);
    picked := Some(Picked(so.chars + [chars[index.value]], so.next + used));
  }

  /** The array after the swaps at positions `top`, `top - 1`, ..., one for each draw made. */
  ghost function AfterSwaps<T>(s: seq<T>, top: nat, made: seq<nat>): (r: seq<T>)
    requires |made| <= top < |s| && forall k :: 0 <= k < |made| ==> made[k] <= top - k
    ensures |r| == |s|
    decreases |made|
  {
    if made == [] then s
    else
      var last := |made| - 1;
      Swapped(AfterSwaps(s, top, made[..last]), top - last, made[last])
  }

  lemma {:induction false} RemainingShuffle<T>(s: seq<T>, made: seq<nat>, rest: seq<nat>)
    requires |made| + |rest| < |s| && ValidDraws(made + rest) && ValidDraws(rest)
    requires forall k :: 0 <= k < |made| ==> made[k] <= |made| + |rest| - k
    ensures Shuffled(s, made + rest) == Shuffled(AfterSwaps(s, |made| + |rest|, made), rest)
    decreases |made|
  {
    if made == [] {
      assert made + rest == rest;
    } else {
      var last := |made| - 1;
      var longer := [made[last]] + rest;
      assert made[..last] + longer == made + rest && longer[1..] == rest;
      assert (made + rest)[last] == made[last];
      RemainingShuffle(s, made[..last], longer);
    }
  }

  /** `made` followed by the draws still to come. */
  function Prepended(made: seq<nat>, rest: Option<Swaps>): Option<Swaps> {
    if rest.None? then None else Some(Swaps(made + rest.value.draws, rest.value.next))
  }

  /** The swap loop, in place: the array ends as the shuffle of its old contents by the draws made. */
  method ShuffleInPlace(random: Source, from: nat, chars: array<char>) returns (ok: bool)
    requires 0 < chars.Length <= MAX_LENGTH
    modifies chars
    ensures !ok ==> !NeverExhausted(random)
    ensures ok <==> SwapDraws(random, from, chars.Length - 1).Some?
    ensures ok ==> chars[..] == Shuffled(old(chars[..]), SwapDraws(random, from, chars.Length - 1).value.draws)
  {
    hide Shuffled, Drawn, NeverExhausted, WordsFor, Accepts, AfterSwaps, SwapDraws, Swapped;
    var next := from;
    ghost var made: seq<nat> := [];
    var top := chars.Length - 1;
    var index := top;
    Unmade(SwapDraws(random, from, top));
    Untouched(chars[..], top);
    while index > 0
      invariant 0 <= index <= top && |made| == top - index
      invariant forall k :: 0 <= k < |made| ==> made[k] <= top - k
      invariant SwapDraws(random, from, top) == Prepended(made, SwapDraws(random, next, index))
      invariant chars[..] == AfterSwaps(old(chars[..]), top, made)
    {
      var swapIndex, used := GetUnbiasedRandomIndex(random, next, index + 1);
      if swapIndex.None? {
        Exhausted(random, next, index);
        return false;
      }
      ghost var before := chars[..];
      chars[index], chars[swapIndex.value] := chars[swapIndex.value], chars[index];
      SwappedInPlace(before, chars[..], index, swapIndex.value);
      AfterOneMore(old(chars[..]), top, made, swapIndex.value);
      NextMade(random, next, index, made, Draw(swapIndex.value, next + used));
      next := next + used;
      made := made + [swapIndex.value];
      index := index - 1;
    }
    LastSwap(random, next, old(chars[..]), made);
    ok := true;
  }

  lemma Exhausted(random: Source, from: nat, n: nat)
    requires n > 0 && NextDraw(random, from, n + 1).None?
    ensures SwapDraws(random, from, n).None?
  {
  }

  lemma SwappedInPlace<T>(before: seq<T>, after: seq<T>, i: nat, j: nat)
    requires i < |before| && j < |before| && after == before[i := before[j]][j := before[i]]
    ensures after == Swapped(before, i, j)
  {
  }

  lemma AfterOneMore<T>(s: seq<T>, top: nat, made: seq<nat>, draw: nat)
    requires |made| < top < |s| && draw <= top - |made| && forall k :: 0 <= k < |made| ==> made[k] <= top - k
    ensures AfterSwaps(s, top, made + [draw]) == Swapped(AfterSwaps(s, top, made), top - |made|, draw)
  {
    assert (made + [draw])[..|made|] == made;
  }

  lemma Untouched<T>(s: seq<T>, top: nat)
    requires top < |s|
    ensures AfterSwaps(s, top, []) == s
  {
  }

  lemma Unmade(rest: Option<Swaps>)
    ensures Prepended([], rest) == rest
  {
    if rest.Some? { assert [] + rest.value.draws == rest.value.draws; }
  }

  /** When no draw is left to make, the draws made are the whole shuffle. */
  lemma LastSwap<T>(random: Source, from: nat, s: seq<T>, made: seq<nat>)
    requires |made| < |s| && ValidDraws(made) && forall k :: 0 <= k < |made| ==> made[k] <= |made| - k
    ensures SwapDraws(random, from, 0) == Some(Swaps([], from)) &&
      Prepended(made, SwapDraws(random, from, 0)) == Some(Swaps(made, from))
    ensures Shuffled(s, made) == AfterSwaps(s, |made|, made)
  {
    assert made + [] == made;
    RemainingShuffle(s, made, []);
  }

  /** Making the next draw moves it from the draws to come to the draws made. */
  lemma NextMade(random: Source, from: nat, n: nat, made: seq<nat>, d: Draw)
    requires n > 0 && NextDraw(random, from, n + 1) == Some(d)
    ensures Prepended(made, SwapDraws(random, from, n)) == Prepended(made + [d.index], SwapDraws(random, d.next, n - 1))
  {
    var rest := SwapDraws(random, d.next, n - 1);
    if rest.Some? { assert made + ([d.index] + rest.value.draws) == made + [d.index] + rest.value.draws; }
  }

  predicate OneOfEach(chars: string) {
    |chars| >= 3 && IsLetter(chars[0]) && IsNumber(chars[1]) && IsSymbol(chars[2])
  }

  /** The first three picks. */
  method PickOneOfEach(random: Source) returns (picked: Option<Picked>)
    ensures picked == Picks(random, SetsFor(3))
    ensures picked.None? ==> !NeverExhausted(random)
    ensures picked.Some? ==> |picked.value.chars| == 3 && OneOfEach(picked.value.chars)
  {
    hide CharsOf, PickNext;
    ThreeSets(random);
    var letter := Pick(random, Picked("", 0), Letters);
    if letter.None? { return None; }
    var number := Pick(random, letter.value, Numbers);
    if number.None? { return None; }
    picked := Pick(random, number.value, Symbols);
    if picked.Some? {
      var x :| x in CharsOf(Letters) && letter.value.chars == "" + [x];
      var y :| y in CharsOf(Numbers) && number.value.chars == letter.value.chars + [y];
      var z :| z in CharsOf(Symbols) && picked.value.chars == number.value.chars + [z];
      PickedFrom(Letters, x);
      PickedFrom(Numbers, y);
      PickedFrom(Symbols, z);
    }
  }

  function Then(random: Source, so: Option<Picked>, c: CharSet): Option<Picked> {
    if so.None? then None else PickNext(random, so.value, c)
  }

  lemma ThreeSets(random: Source)
    ensures Picks(random, SetsFor(3)) ==
      Then(random, Then(random, PickNext(random, Picked("", 0), Letters), Numbers), Symbols)
  {
    var sets := SetsFor(3);
    assert sets == [Letters, Numbers, Symbols];
    assert sets[..2] == [Letters, Numbers] && sets[..2][..1] == [Letters] && sets[..1][..0] == [];
    assert Picks(random, sets[..1]) == PickNext(random, Picked("", 0), Letters);
    assert Picks(random, sets[..2]) == Then(random, Picks(random, sets[..1]), Numbers);
  }

  /** All picks of a password. */
  method PickAll(random: Source, length: nat) returns (picked: Option<Picked>)
    requires length >= 3
    ensures picked == Picks(random, SetsFor(length))
    ensures picked.None? ==> !NeverExhausted(random)
    ensures picked.Some? ==> |picked.value.chars| == length && OneOfEach(picked.value.chars)
  {
    hide CharsOf, PickNext;
    picked := PickOneOfEach(random);
    if picked.None? {
      PicksStayExhausted(random, 3, length);
      return;
    }
    var n := 3;
    while n < length
      invariant 3 <= n <= length && picked.Some? && picked == Picks(random, SetsFor(n))
      invariant |picked.value.chars| == n && OneOfEach(picked.value.chars)
    {
      OneMoreSet(n);
      picked := Pick(random, picked.value, All);
      if picked.None? {
        PicksStayExhausted(random, n + 1, length);
        return;
      }
      n := n + 1;
    }
  }

  predicate IsLength(length: Number) {
    IsInteger(length) && 8.0 <= length.value <= 64.0
  }

  /**
   `tryGenerateBrowserPassword`: it returns the password that the random words determine; every
   password it returns has the requested length and passes the validity check; it fails with
   `InvalidLength` exactly for what is no integer from 8 to 64, and otherwise only without a working
   random source, be it missing, throwing or delivering nothing acceptable.
   */
  method TryGenerateBrowserPassword(length: Number, cryptoAvailable: bool, random: Source)
    returns (result: Result<string, GenerationError>)
    ensures result == Err(InvalidLength) <==> !IsLength(length)
    ensures IsLength(length) && cryptoAvailable ==>
      var password := Generated(random, length.value.Floor);
      result == if password.Some? then Ok(password.value) else Err(SecureRandomUnavailable)
    ensures result.Ok? ==> |result.value| as real == length.value && IsBrowserPasswordValid(result.value)
    ensures !cryptoAvailable ==> result.Err?
    ensures cryptoAvailable && IsLength(length) && NeverExhausted(random) ==> result.Ok?
  {
    if !IsInteger(length) || length.value < MIN_LENGTH as real || length.value > MAX_LENGTH as real {
      return Err(InvalidLength);
    }
    if !cryptoAvailable {
      return Err(SecureRandomUnavailable);
    }
    result := GenerateWith(random, length.value.Floor);
  }

  /** The `try` block: picks, swaps, and the characters joined. */
  method GenerateWith(random: Source, length: nat) returns (result: Result<string, GenerationError>)
    requires MIN_LENGTH <= length <= MAX_LENGTH
    ensures var password := Generated(random, length);
      result == if password.Some? then Ok(password.value) else Err(SecureRandomUnavailable)
    ensures result.Ok? ==> |result.value| == length && IsBrowserPasswordValid(result.value)
    ensures NeverExhausted(random) ==> result.Ok?
  {
    hide CharsOf, Picks, SwapDraws, Shuffled, NeverExhausted;
    var picked := PickAll(random, length);
    if picked.None? { return Err(SecureRandomUnavailable); }
    var chars := picked.value.chars;
    assert IsBrowserPasswordValid(chars) by {
      assert IsLetter(chars[0]) && IsNumber(chars[1]) && IsSymbol(chars[2]);
    }
    hide IsBrowserPasswordValid;
    var buffer := new char[length](i requires 0 <= i < |chars| => chars[i]);
    assert buffer[..] == chars;
    var ok := ShuffleInPlace(random, picked.value.next, buffer);
    if !ok { return Err(SecureRandomUnavailable); }
    ShuffledIsPermutation(chars, SwapDraws(random, picked.value.next, length - 1).value.draws);
    ValidityIsOrderless(chars, buffer[..]);
    result := Ok(buffer[..]);
  }
}
