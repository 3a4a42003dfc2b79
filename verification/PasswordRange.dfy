/** What the generator of `src/lib/browser-password.ts` can produce, and how its characters are spread. */
module PasswordRange {
  import opened Wrappers
  import opened Permutations
  import opened BrowserPassword
  import opened PasswordGenerator

  // ---- the sets of characters --------------------------------------------------------------------

  predicate IsListedSymbol(c: char) {
    c == '!' || c == '@' || c == '#' || c == '$' || c == '%' || c == '^' || c == '&' || c == '*' ||
    c == '_' || c == '-' || c == '+' || c == '=' || c == '?'
  }

  /** The characters a set is meant to hold. */
  predicate Belongs(c: CharSet, x: char) {
    match c
    case Letters => IsLetter(x)
    case Numbers => IsNumber(x)
    case Symbols => IsListedSymbol(x)
    case All => IsLetter(x) || IsNumber(x) || IsListedSymbol(x)
  }

  lemma LettersAndNumbersInOrder()
    ensures |CAPITALS| == 26 && forall i :: 0 <= i < 26 ==> CAPITALS[i] == (65 + i) as char
    ensures |SMALLS| == 26 && forall i :: 0 <= i < 26 ==> SMALLS[i] == (97 + i) as char
    ensures |NUMBERS| == 10 && forall i :: 0 <= i < 10 ==> NUMBERS[i] == (48 + i) as char
  {
  }

  lemma SymbolsAreListed(x: char)
    ensures x in SYMBOLS <==> IsListedSymbol(x)
    ensures |SYMBOLS| == 13 && Distinct(SYMBOLS)
  {
    assert SYMBOLS[0] == '!' && SYMBOLS[1] == '@' && SYMBOLS[2] == '#' && SYMBOLS[3] == '$' && SYMBOLS[4] == '%';
    assert SYMBOLS[5] == '^' && SYMBOLS[6] == '&' && SYMBOLS[7] == '*' && SYMBOLS[8] == '_' && SYMBOLS[9] == '-';
    assert SYMBOLS[10] == '+' && SYMBOLS[11] == '=' && SYMBOLS[12] == '?';
  }

  lemma LettersAre(x: char)
    ensures x in CAPITALS + SMALLS <==> IsLetter(x)
    ensures x in NUMBERS <==> IsNumber(x)
  {
    LettersAndNumbersInOrder();
    if 'A' <= x <= 'Z' { assert CAPITALS[x as int - 65] == x; }
    if 'a' <= x <= 'z' { assert SMALLS[x as int - 97] == x; }
    if '0' <= x <= '9' { assert NUMBERS[x as int - 48] == x; }
  }

  /** Each set holds what it is meant to hold. */
  lemma SetHolds(c: CharSet, x: char)
    ensures x in CharsOf(c) <==> Belongs(c, x)
  {
    LettersAre(x);
    SymbolsAreListed(x);
    hide IsLetter, IsNumber, IsListedSymbol;
    assert CharsOf(All) == (CAPITALS + SMALLS) + NUMBERS + SYMBOLS;
  }

  lemma DistinctConcat(a: string, b: string)
    requires Distinct(a) && Distinct(b) && forall x :: x in a ==> x !in b
    ensures Distinct(a + b)
  {
    forall i, j | 0 <= i < j < |a + b| ensures (a + b)[i] != (a + b)[j] {
      if i < |a| <= j { assert a[i] in a && (a + b)[j] in b; }
    }
  }

  lemma LettersAreDistinct()
    ensures Distinct(CAPITALS + SMALLS) && |CAPITALS + SMALLS| == 52
    ensures Distinct(NUMBERS) && |NUMBERS| == 10
  {
    LettersAndNumbersInOrder();
    assert Distinct(CAPITALS) && Distinct(SMALLS);
    DistinctConcat(CAPITALS, SMALLS);
  }

  /** No set holds a character twice; there are 52 letters, 10 numbers and 13 symbols, 75 in all. */
  lemma SetIsDistinct(c: CharSet)
    ensures Distinct(CharsOf(c))
    ensures |CharsOf(c)| == match c case Letters => 52 case Numbers => 10 case Symbols => 13 case All => 75
  {
    LettersAreDistinct();
    SymbolsAreListed('!');
    forall x ensures x in CAPITALS + SMALLS ==> x !in NUMBERS && x !in SYMBOLS {
      LettersAre(x);
      SymbolsAreListed(x);
    }
    forall x ensures x in NUMBERS ==> x !in SYMBOLS {
      LettersAre(x);
      SymbolsAreListed(x);
    }
    hide *;
    DistinctConcat(CAPITALS + SMALLS, NUMBERS);
    DistinctConcat(CAPITALS + SMALLS + NUMBERS, SYMBOLS);
  }

  /** The accepted words for which a pick from the set is `x`. */
  ghost function WordsPicking(c: CharSet, x: char): set<int> {
    set w | 0 <= w < RejectionLimit(|CharsOf(c)|) && CharsOf(c)[w % |CharsOf(c)|] == x
  }

  /** No character of a set is favoured over another. */
  lemma EveryCharacterIsEquallyLikely(c: CharSet, x: char)
    requires Belongs(c, x)
    ensures |WordsPicking(c, x)| ==
      4_294_967_296 / match c case Letters => 52 case Numbers => 10 case Symbols => 13 case All => 75
  {
    SetHolds(c, x);
    SetIsDistinct(c);
    hide CharsOf, Belongs, RejectionLimit;
    var i: nat :| i < |CharsOf(c)| && CharsOf(c)[i] == x;
    assert WordsPicking(c, x) == WordsFor(|CharsOf(c)|, i);
    EveryIndexIsEquallyLikely(|CharsOf(c)|, i);
  }

  // ---- random words for given picks and swaps --------------------------------------------------------

  /** A small word is accepted at once. */
  lemma SmallWordDecides(random: Source, from: nat, max: nat, index: nat)
    requires index < max <= 75 && random(from) == Some(index)
    ensures NextDraw(random, from, max) == Some(Draw(index, from + 1))
  {
    hide Drawn;
    AcceptedAtOnce(random, from, max, index, MAX_REJECTION_ATTEMPTS);
  }

  lemma AcceptedAtOnce(random: Source, from: nat, max: nat, index: nat, attempts: nat)
    requires index < max <= 75 && random(from) == Some(index) && attempts > 0
    ensures Drawn(random, from, max, attempts) == Some(Draw(index, from + 1))
  {
    LimitIsLarge(max);
    Remainder(0, max, index);
    hide RejectionLimit;
  }

  lemma LimitIsLarge(max: nat)
    requires 0 < max <= 75
    ensures RejectionLimit(max) >= max
  {
    var blocks := UINT32_RANGE / max;
    assert blocks >= 1;
    FullBlocks(blocks, max);
  }

  /** Call `k` of the source delivers the place of character `k` in its set. */
  ghost predicate PicksInOrder(random: Source, sets: seq<CharSet>, chars: string) {
    |chars| == |sets| &&
    forall k :: 0 <= k < |sets| ==>
      random(k).Some? && random(k).value < |CharsOf(sets[k])| && CharsOf(sets[k])[random(k).value] == chars[k]
  }

  lemma {:induction false} PicksAre(random: Source, sets: seq<CharSet>, chars: string)
    requires PicksInOrder(random, sets, chars)
    ensures Picks(random, sets) == Some(Picked(chars, |chars|))
  {
    hide CharsOf, NextDraw;
    if sets == [] {
      assert chars == "";
    } else {
      var last := |sets| - 1;
      PicksAre(random, sets[..last], chars[..last]);
      SmallWordDecides(random, last, |CharsOf(sets[last])|, random(last).value);
      assert chars == chars[..last] + [chars[last]];
    }
  }

  lemma {:induction false} SwapsAre(random: Source, from: nat, draws: seq<nat>)
    requires ValidDraws(draws) && |draws| < 75 && forall k :: 0 <= k < |draws| ==> random(from + k) == Some(draws[k])
    ensures SwapDraws(random, from, |draws|) == Some(Swaps(draws, from + |draws|))
    decreases |draws|
  {
    hide NextDraw;
    if draws == [] {
    } else {
      RestOfDraws(draws);
      SmallWordDecides(random, from, |draws| + 1, draws[0]);
      SwapsAre(random, from + 1, draws[1..]);
      assert draws == [draws[0]] + draws[1..];
    }
  }

  /** The words that make the generator pick `chars` and then swap by `draws`. */
  ghost function SourceOf(places: seq<nat>, draws: seq<nat>): Source
    requires forall k :: 0 <= k < |places| ==> places[k] < 75
    requires forall k :: 0 <= k < |draws| ==> draws[k] < 75
  {
    (k: nat) =>
      if k < |places| then Some(places[k]) else if k < |places| + |draws| then Some(draws[k - |places|]) else None
  }

  lemma PlacesOf(sets: seq<CharSet>, chars: string) returns (places: seq<nat>)
    requires |chars| == |sets| && forall k :: 0 <= k < |sets| ==> Belongs(sets[k], chars[k])
    ensures |places| == |sets|
    ensures forall k :: 0 <= k < |sets| ==> places[k] < |CharsOf(sets[k])| && CharsOf(sets[k])[places[k]] == chars[k]
  {
    places := [];
    hide CharsOf, Belongs;
    for n := 0 to |sets|
      invariant |places| == n
      invariant forall k :: 0 <= k < n ==> places[k] < |CharsOf(sets[k])| && CharsOf(sets[k])[places[k]] == chars[k]
    {
      SetHolds(sets[n], chars[n]);
      var i: nat :| i < |CharsOf(sets[n])| && CharsOf(sets[n])[i] == chars[n];
      places := places + [i];
    }
  }

  // ---- the range of the generator ----------------------------------------------------------------------

  predicate IsPasswordChar(x: char) { IsLetter(x) || IsNumber(x) || IsListedSymbol(x) }

  predicate OnlyPasswordChars(p: string) { forall x :: x in p ==> IsPasswordChar(x) }

  /** What the picks can be: a letter, a number, a symbol, and then whatever the alphabet holds. */
  predicate IsPickOrder(p: string) { OneOfEach(p) && OnlyPasswordChars(p) }

  lemma SetsOfPickOrder(p: string)
    requires |p| >= 3
    ensures IsPickOrder(p) <==> forall k :: 0 <= k < |p| ==> Belongs(SetsFor(|p|)[k], p[k])
  {
    if forall k :: 0 <= k < |p| ==> Belongs(SetsFor(|p|)[k], p[k]) {
      assert Belongs(Letters, p[0]) && Belongs(Numbers, p[1]) && Belongs(Symbols, p[2]);
      forall x | x in p ensures IsPasswordChar(x) {
        var k :| 0 <= k < |p| && p[k] == x;
        assert Belongs(SetsFor(|p|)[k], p[k]);
      }
    }
    if IsPickOrder(p) {
      forall k | 0 <= k < |p| ensures Belongs(SetsFor(|p|)[k], p[k]) { assert p[k] in p; }
    }
  }

  lemma {:induction false} PicksBelong(random: Source, sets: seq<CharSet>)
    requires Picks(random, sets).Some?
    ensures forall k :: 0 <= k < |sets| ==> Belongs(sets[k], Picks(random, sets).value.chars[k])
  {
    hide CharsOf, Belongs, NextDraw;
    if sets == [] {
    } else {
      PicksBelong(random, sets[..|sets| - 1]);
      SetHolds(sets[|sets| - 1], Picks(random, sets).value.chars[|sets| - 1]);
    }
  }

  /** Every order of picks and every vector of swaps is what some random words make. */
  lemma PicksAndSwapsPossible(p: string, draws: seq<nat>) returns (random: Source)
    requires 3 <= |p| <= 64 && IsPickOrder(p) && |draws| == |p| - 1 && ValidDraws(draws)
    ensures Picks(random, SetsFor(|p|)) == Some(Picked(p, |p|))
    ensures Generated(random, |p|) == Some(Shuffled(p, draws))
  {
    hide CharsOf, Picks, SwapDraws, Shuffled, IsPickOrder, Belongs;
    var sets := SetsFor(|p|);
    SetsOfPickOrder(p);
    var places := PlacesOf(sets, p);
    random := SourceOf(places, draws);
    PicksAre(random, sets, p);
    SwapsAre(random, |p|, draws);
  }

  /** Some character of each kind can be moved to the front. */
  lemma PickOrderExists(q: string) returns (p: string)
    requires |q| >= 3 && IsBrowserPasswordValid(q) && OnlyPasswordChars(q)
    ensures multiset(p) == multiset(q) && |p| == |q| && IsPickOrder(p)
  {
    var i: nat :| i < |q| && IsLetter(q[i]);
    p := Swapped(q, 0, i);
    SwapFacts(q, 0, i);
    SameElements(p, q);
    var j: nat := WhereNumber(p, q);
    var before := p;
    p := Swapped(before, 1, j);
    SwapFacts(before, 1, j);
    SameElements(p, before);
    var k: nat := WhereSymbol(p, q);
    before := p;
    p := Swapped(before, 2, k);
    SwapFacts(before, 2, k);
    SameElements(p, before);
  }

  lemma WhereNumber(p: string, q: string) returns (j: nat)
    requires IsBrowserPasswordValid(q) && multiset(p) == multiset(q) && p != [] && IsLetter(p[0])
    ensures 1 <= j < |p| && IsNumber(p[j])
  {
    var i: nat :| i < |q| && IsNumber(q[i]);
    assert q[i] in multiset(q) && q[i] in p;
    j :| 0 <= j < |p| && p[j] == q[i];
  }

  lemma WhereSymbol(p: string, q: string) returns (k: nat)
    requires IsBrowserPasswordValid(q) && multiset(p) == multiset(q) && |p| >= 2 && IsLetter(p[0]) && IsNumber(p[1])
    ensures 2 <= k < |p| && IsSymbol(p[k])
  {
    var i: nat :| i < |q| && IsSymbol(q[i]);
    assert q[i] in multiset(q) && q[i] in p;
    k :| 0 <= k < |p| && p[k] == q[i];
  }

  /**
   The passwords the generator can produce are exactly the valid ones over its 75 characters: each of them
   is the result of some random words, and nothing else ever is.
   */
  lemma RangeOfGenerator(q: string)
    requires 8 <= |q| <= 64
    ensures (exists random: Source :: Generated(random, |q|) == Some(q)) <==>
      IsBrowserPasswordValid(q) && OnlyPasswordChars(q)
  {
    hide IsBrowserPasswordValid, OnlyPasswordChars, Generated;
    if random: Source :| Generated(random, |q|) == Some(q) {
      GeneratedIsValid(random, q);
    }
    if IsBrowserPasswordValid(q) && OnlyPasswordChars(q) {
      var p := PickOrderExists(q);
      var draws := DrawsExist(p, q, |q| - 1);
      var random := PicksAndSwapsPossible(p, draws);
      assert Generated(random, |q|) == Some(q);
    }
  }

  lemma GeneratedIsValid(random: Source, q: string)
    requires 8 <= |q| <= 64 && Generated(random, |q|) == Some(q)
    ensures IsBrowserPasswordValid(q) && OnlyPasswordChars(q)
  {
    hide Picks, SwapDraws, Shuffled;
    var p := Picks(random, SetsFor(|q|)).value.chars;
    PicksBelong(random, SetsFor(|q|));
    SetsOfPickOrder(p);
    ShuffledIsPermutation(p, SwapDraws(random, Picks(random, SetsFor(|q|)).value.next, |q| - 1).value.draws);
    SameElements(p, q);
    assert IsBrowserPasswordValid(p);
    ValidityIsOrderless(p, q);
  }

  /** A valid password has 8 to 64 characters, a letter, a digit, and something that is neither. */
  lemma ValidityMeans(q: string)
    ensures IsBrowserPasswordValid(q) <==>
      && 8 <= |q| <= 64
      && (exists c :: c in q && ('A' <= c <= 'Z' || 'a' <= c <= 'z'))
      && (exists c :: c in q && '0' <= c <= '9')
      && (exists c :: c in q && !('A' <= c <= 'Z' || 'a' <= c <= 'z' || '0' <= c <= '9'))
  {
    if IsBrowserPasswordValid(q) {
      var i :| 0 <= i < |q| && IsLetter(q[i]);
      var j :| 0 <= j < |q| && IsNumber(q[j]);
      var k :| 0 <= k < |q| && IsSymbol(q[k]);
      assert q[i] in q && q[j] in q && q[k] in q;
    }
  }
}
