/**
 The password generator of `src/lib/browser-password.ts`. What the calls of
 `crypto.getRandomValues` do is an input: `random(k)` is the word that call `k`
 delivers, or `None` when that call throws.
 */
module BrowserPassword {
  import opened Wrappers
  import opened Permutations

  const UINT32_RANGE: int := 0x1_0000_0000
  const MAX_REJECTION_ATTEMPTS: int := 128
  const MIN_LENGTH: int := 8
  const MAX_LENGTH: int := 64

  type Word = w: int | 0 <= w < 0x1_0000_0000

  // ---- one unbiased index ---------------------------------------------------------------

  function RejectionLimit(max: nat): int
    requires max > 0
  {
    UINT32_RANGE / max * max
  }

  /** The accepted words that yield a given index. */
  ghost function WordsFor(max: nat, index: nat): set<int>
    requires max > 0
  {
    set w | 0 <= w < RejectionLimit(max) && w % max == index
  }

  /** No index is favoured: each is the result of exactly floor(2^32 / max) accepted words. */
  lemma {:induction false} EveryIndexIsEquallyLikely(max: nat, index: nat)
    requires index < max
    ensures |WordsFor(max, index)| == 4_294_967_296 / max
    ensures RejectionLimit(max) <= 4_294_967_296
  {
    CountMultiples(max, index, UINT32_RANGE / max);
  }

  lemma {:induction false} CountMultiples(max: nat, index: nat, blocks: nat)
    requires index < max
    ensures |set w | 0 <= w < blocks * max && w % max == index| == blocks
  {
    var words := set w | 0 <= w < blocks * max && w % max == index;
    if blocks == 0 {
      assert words == {};
    } else {
      var fewer := set w | 0 <= w < (blocks - 1) * max && w % max == index;
      var top := (blocks - 1) * max + index;
      CountMultiples(max, index, blocks - 1);
      Remainder(blocks - 1, max, index);
      forall w ensures w in words <==> w in fewer + {top} {
        if w in words && w !in fewer {
          Quotient(blocks - 1, max, w);
        }
      }
      assert words == fewer + {top};
    }
  }

  lemma Remainder(block: nat, max: nat, index: nat)
    requires index < max
    ensures (block * max + index) % max == index && (block + 1) * max == block * max + max
  {
    var n := block * max + index;
    Unique(n / max, n % max, block, index, max);
  }

  lemma Quotient(block: nat, max: nat, w: nat)
    requires 0 < max && block * max <= w < block * max + max
    ensures w == block * max + w % max
  {
    Unique(w / max, w % max, block, w - block * max, max);
  }

  lemma Unique(q: int, r: int, p: int, s: int, max: nat)
    requires 0 <= r < max && 0 <= s < max && q * max + r == p * max + s
    ensures q == p && r == s
  {
    if q < p {
      FullBlocks(p - q, max);
    } else if p < q {
      FullBlocks(q - p, max);
    }
  }

  lemma FullBlocks(blocks: int, max: nat)
    requires blocks >= 1
    ensures blocks * max >= max
  {
    assert blocks * max == (blocks - 1) * max + max;
  }

  type Source = nat -> Option<Word>

  predicate Accepts(random: Source, position: nat, max: nat)
    requires max > 0
  {
    random(position).Some? && random(position).value < RejectionLimit(max)
  }

  /** The call delivers a word, which is not acceptable. */
  predicate Rejects(random: Source, position: nat, max: nat)
    requires max > 0
  {
    random(position).Some? && random(position).value >= RejectionLimit(max)
  }

  /** The calls from `from` on reject until call `k` accepts. */
  predicate AcceptsFirst(random: Source, from: nat, k: nat, max: nat)
    requires max > 0
  {
    from <= k && Accepts(random, k, max) && forall j :: from <= j < k ==> Rejects(random, j, max)
  }

  predicate AcceptsSoon(random: Source, from: nat, max: nat)
    requires max > 0
  {
    exists k :: from <= k < from + 128 && AcceptsFirst(random, from, k, max)
  }

  /** Wherever one begins, an acceptable word comes within 128 calls, for every set size the generator uses. */
  ghost predicate NeverExhausted(random: Source) {
    forall from: nat, max: nat :: 0 < max <= 75 ==> AcceptsSoon(random, from, max)
  }

  datatype Draw = Draw(index: nat, next: nat)

  /** The first accepted word among the next `attempts` decides; `next` is the word after it. */
  function Drawn(random: Source, from: nat, max: nat, attempts: nat): (d: Option<Draw>)
    requires max > 0
    ensures d.Some? ==> d.value.index < max && d.value.next > from
    decreases attempts, from
  {
    if attempts == 0 || random(from).None? then None
    else if Accepts(random, from, max) then Some(Draw(random(from).value % max, from + 1))
    else Drawn(random, from + 1, max, attempts - 1)
  }

  /** Nothing is accepted soon when all words are rejected, or the first one that is not was never delivered. */
  lemma NotSoon(random: Source, from: nat, used: nat, max: nat)
    requires max > 0 && (used == MAX_REJECTION_ATTEMPTS || random(from + used).None?)
    requires forall k :: from <= k < from + used ==> Rejects(random, k, max)
    ensures !AcceptsSoon(random, from, max)
  {
    forall k | from <= k < from + MAX_REJECTION_ATTEMPTS ensures !AcceptsFirst(random, from, k, max) {
      assert k < from + used ==> Rejects(random, k, max);
      assert k > from + used ==> !Rejects(random, from + used, max);
    }
  }

  /**
   `getUnbiasedRandomIndex`: the first accepted word among 128 decides; `used` counts the words taken.
   It throws exactly when the words run out or a call throws before one is accepted.
   */
  method GetUnbiasedRandomIndex(random: Source, from: nat, max: nat) returns (index: Option<nat>, used: nat)
    requires 0 < max <= UINT32_RANGE
    ensures used <= MAX_REJECTION_ATTEMPTS
    ensures index.Some? ==> used > 0 && AcceptsFirst(random, from, from + used - 1, max)
    ensures index.Some? ==> random(from + used - 1).value in WordsFor(max, index.value) && index.value < max
    ensures index.None? ==> forall k :: from <= k < from + used ==> Rejects(random, k, max)
    ensures index.None? ==> used == MAX_REJECTION_ATTEMPTS || random(from + used).None?
    ensures index.None? <==> !AcceptsSoon(random, from, max)
    ensures index.None? && max <= 75 ==> !NeverExhausted(random)
    ensures Drawn(random, from, max, MAX_REJECTION_ATTEMPTS) ==
      if index.None? then None else Some(Draw(index.value, from + used))
  {
    var rejectionLimit := UINT32_RANGE / max * max;
    used := 0;
    while used < MAX_REJECTION_ATTEMPTS
      invariant 0 <= used <= MAX_REJECTION_ATTEMPTS
      invariant forall k :: from <= k < from + used ==> Rejects(random, k, max)
      invariant Drawn(random, from, max, MAX_REJECTION_ATTEMPTS) ==
        Drawn(random, from + used, max, MAX_REJECTION_ATTEMPTS - used)
    {
      var delivered := random(from + used);
      if delivered.None? {
        NotSoon(random, from, used, max);
        return None, used;
      }
      var value := delivered.value;
      used := used + 1;
      if value < rejectionLimit {
        assert AcceptsFirst(random, from, from + used - 1, max);
        return Some(value % max), used;
      }
    }
    NotSoon(random, from, used, max);
    index := None;
  }

  // ---- the shuffle -----------------------------------------------------------------------

  function Swapped<T>(s: seq<T>, i: nat, j: nat): (r: seq<T>)
    requires i < |s| && j < |s|
    ensures |r| == |s|
  {
    s[i := s[j]][j := s[i]]
  }

  /** The swap indices of one shuffle: the first for the last position, each at most its position. */
  predicate ValidDraws(draws: seq<nat>) {
    forall k :: 0 <= k < |draws| ==> draws[k] <= |draws| - k
  }

  /** The shuffle from position `|draws|` downwards. */
  function Shuffled<T>(s: seq<T>, draws: seq<nat>): (r: seq<T>)
    requires |draws| < |s| || (s == [] && draws == [])
    requires ValidDraws(draws)
    ensures |r| == |s|
    decreases |draws|
  {
    if draws == [] then s
    else
      RestOfDraws(draws);
      Shuffled(Swapped(s, |draws|, draws[0]), draws[1..])
  }

  lemma RestOfDraws(draws: seq<nat>)
    requires ValidDraws(draws) && draws != []
    ensures ValidDraws(draws[1..])
  {
    forall k | 0 <= k < |draws| - 1 ensures draws[1..][k] <= |draws| - 1 - k {
      assert draws[1..][k] == draws[k + 1];
    }
  }

  lemma SwapFacts<T>(s: seq<T>, i: nat, j: nat)
    requires i < |s| && j < |s|
    ensures multiset(Swapped(s, i, j)) == multiset(s)
    ensures Distinct(s) ==> Distinct(Swapped(s, i, j))
  {
  }

  lemma {:induction false} ShuffledIsPermutation<T>(s: seq<T>, draws: seq<nat>)
    requires (|draws| < |s| || (s == [] && draws == [])) && ValidDraws(draws)
    ensures multiset(Shuffled(s, draws)) == multiset(s)
    ensures forall i :: |draws| < i < |s| ==> Shuffled(s, draws)[i] == s[i]
    decreases |draws|
  {
    if draws == [] {
    } else {
      RestOfDraws(draws);
      SwapFacts(s, |draws|, draws[0]);
      ShuffledIsPermutation(Swapped(s, |draws|, draws[0]), draws[1..]);
    }
  }

  /** The element the first draw picks is final. */
  lemma FirstDrawIsFinal<T>(s: seq<T>, draws: seq<nat>)
    requires 0 < |draws| < |s| && ValidDraws(draws)
    ensures Shuffled(s, draws)[|draws|] == s[draws[0]]
  {
    RestOfDraws(draws);
    ShuffledIsPermutation(Swapped(s, |draws|, draws[0]), draws[1..]);
  }

  /** At most one vector of draws produces a given arrangement of distinct elements. */
  lemma {:induction false} DrawsAreUnique<T>(s: seq<T>, d: seq<nat>, e: seq<nat>)
    requires Distinct(s) && |d| == |e| && (|d| < |s| || (s == [] && d == [])) && ValidDraws(d) && ValidDraws(e)
    requires Shuffled(s, d) == Shuffled(s, e)
    ensures d == e
    decreases |d|
  {
    if d == [] {
    } else {
      FirstDrawIsFinal(s, d);
      FirstDrawIsFinal(s, e);
      assert d[0] == e[0];
      RestOfDraws(d);
      RestOfDraws(e);
      SwapFacts(s, |d|, d[0]);
      DrawsAreUnique(Swapped(s, |d|, d[0]), d[1..], e[1..]);
      assert d == [d[0]] + d[1..] && e == [e[0]] + e[1..];
    }
  }

  /** Every permutation that agrees above position `n` is produced by some draws for the positions up to `n`. */
  lemma {:induction false} DrawsExist<T>(s: seq<T>, p: seq<T>, n: nat) returns (draws: seq<nat>)
    requires multiset(s) == multiset(p) && n < |s| == |p|
    requires forall i :: n < i < |s| ==> s[i] == p[i]
    ensures |draws| == n && ValidDraws(draws) && Shuffled(s, draws) == p
    decreases n
  {
    if n == 0 {
      draws := [];
      LastElementAgrees(s, p);
    } else {
      var j := WhereIs(s, p, n);
      SwapFacts(s, n, j);
      var rest := DrawsExist(Swapped(s, n, j), p, n - 1);
      draws := [j] + rest;
      assert draws[1..] == rest;
    }
  }

  lemma WhereIs<T>(s: seq<T>, p: seq<T>, n: nat) returns (j: nat)
    requires multiset(s) == multiset(p) && n < |s| == |p|
    requires forall i :: n < i < |s| ==> s[i] == p[i]
    ensures j <= n && s[j] == p[n]
  {
    assert s == s[..n + 1] + s[n + 1..] && p == p[..n + 1] + p[n + 1..];
    assert s[n + 1..] == p[n + 1..];
    assert multiset(s[..n + 1]) == multiset(s) - multiset(s[n + 1..]) == multiset(p[..n + 1]);
    assert p[..n + 1][n] == p[n] && p[n] in multiset(p[..n + 1]);
    assert p[n] in s[..n + 1];
    j :| 0 <= j < n + 1 && s[..n + 1][j] == p[n];
  }

  lemma LastElementAgrees<T>(s: seq<T>, p: seq<T>)
    requires multiset(s) == multiset(p) && 0 < |s| == |p|
    requires forall i :: 0 < i < |s| ==> s[i] == p[i]
    ensures s == p
  {
    assert s == [s[0]] + s[1..] && p == [p[0]] + p[1..];
    assert s[1..] == p[1..];
    assert multiset{s[0]} == multiset(s) - multiset(s[1..]) == multiset{p[0]};
    assert s[0] in multiset{p[0]};
  }

  /** The shuffle is a bijection from draw vectors to permutations of distinct elements. */
  lemma ShuffleIsBijective<T>(s: seq<T>, p: seq<T>) returns (draws: seq<nat>)
    requires Distinct(s) && multiset(s) == multiset(p) && s != []
    ensures |draws| == |s| - 1 && ValidDraws(draws) && Shuffled(s, draws) == p
    ensures forall e: seq<nat> :: |e| == |s| - 1 && ValidDraws(e) && Shuffled(s, e) == p ==> e == draws
  {
    SameLength(s, p);
    draws := DrawsExist(s, p, |s| - 1);
    forall e: seq<nat> | |e| == |s| - 1 && ValidDraws(e) && Shuffled(s, e) == p ensures e == draws {
      DrawsAreUnique(s, e, draws);
    }
  }

  // ---- uniformity of the whole shuffle, in words ------------------------------------------

  /** `words[k]` is an accepted word for the draw at position `|words| - k`. */
  predicate AllAccepted(words: seq<int>) {
    forall k :: 0 <= k < |words| ==> 0 <= words[k] < RejectionLimit(|words| - k + 1)
  }

  function DrawsOf(words: seq<int>): (draws: seq<nat>)
    ensures |draws| == |words| && ValidDraws(draws)
  {
    seq(|words|, k requires 0 <= k < |words| => words[k] % (|words| - k + 1))
  }

  function Times(a: nat, b: nat): nat { a * b }

  /** Product of the number of accepted words per index over all positions: it does not mention the draws. */
  function WaysPerOutcome(n: nat): nat {
    if n == 0 then 1 else Times(UINT32_RANGE / (n + 1), WaysPerOutcome(n - 1))
  }

  /** The accepted word sequences behind one vector of draws. */
  ghost function WordsBehind(draws: seq<nat>): set<seq<int>>
    requires ValidDraws(draws)
    decreases |draws|
  {
    if draws == [] then {[]}
    else
      RestOfDraws(draws);
      Prefixed(WordsFor(|draws| + 1, draws[0]), WordsBehind(draws[1..]))
  }

  ghost function Prefixed<T(!new)>(heads: set<T>, tails: set<seq<T>>): set<seq<T>> {
    set h, t | h in heads && t in tails :: [h] + t
  }

  lemma InPrefixed<T(!new)>(heads: set<T>, tails: set<seq<T>>)
    ensures forall x :: x in Prefixed(heads, tails) <==> x != [] && x[0] in heads && x[1..] in tails
  {
    forall x: seq<T> | x != [] && x[0] in heads && x[1..] in tails ensures x in Prefixed(heads, tails) {
      assert x == [x[0]] + x[1..];
    }
  }

  lemma {:induction false} PrefixedSize<T(!new)>(heads: set<T>, tails: set<seq<T>>)
    ensures |Prefixed(heads, tails)| == |heads| * |tails|
    decreases heads
  {
    if heads == {} {
      assert Prefixed(heads, tails) == {};
    } else {
      hide Prefixed;
      var h :| h in heads;
      var others := heads - {h};
      PrefixedSize(others, tails);
      OneHeadSize(h, tails);
      SplitHead(h, others, tails);
      assert heads == others + {h} && |heads| == |others| + 1;
      OneMore(|others|, |tails|);
    }
  }

  lemma SplitHead<T(!new)>(h: T, others: set<T>, tails: set<seq<T>>)
    requires h !in others
    ensures |Prefixed(others + {h}, tails)| == |Prefixed(others, tails)| + |Prefixed({h}, tails)|
  {
    InPrefixed(others + {h}, tails);
    InPrefixed(others, tails);
    InPrefixed({h}, tails);
    hide Prefixed;
    assert Prefixed(others + {h}, tails) == Prefixed(others, tails) + Prefixed({h}, tails);
    assert Prefixed(others, tails) !! Prefixed({h}, tails);
  }

  lemma OneMore(n: nat, m: nat)
    ensures (n + 1) * m == n * m + m
  {
  }

  lemma {:induction false} OneHeadSize<T(!new)>(h: T, tails: set<seq<T>>)
    ensures |Prefixed({h}, tails)| == |tails|
    decreases tails
  {
    if tails == {} {
      assert Prefixed({h}, tails) == {};
    } else {
      var t :| t in tails;
      OneHeadSize(h, tails - {t});
      var x := [h] + t;
      assert x[1..] == t;
      InPrefixed({h}, tails);
      InPrefixed({h}, tails - {t});
      forall y ensures y in Prefixed({h}, tails) <==> y in Prefixed({h}, tails - {t}) + {x} {
        if y != [] && y[0] == h && y[1..] == t { assert y == x; }
      }
      assert Prefixed({h}, tails) == Prefixed({h}, tails - {t}) + {x};
    }
  }

  lemma {:induction false} WordsBehindExactly(draws: seq<nat>, words: seq<int>)
    requires ValidDraws(draws)
    ensures words in WordsBehind(draws) <==> |words| == |draws| && AllAccepted(words) && DrawsOf(words) == draws
    decreases |draws|
  {
    if draws != [] {
      RestOfDraws(draws);
      InPrefixed(WordsFor(|draws| + 1, draws[0]), WordsBehind(draws[1..]));
    }
    if draws != [] && words != [] {
      WordsBehindExactly(draws[1..], words[1..]);
      HeadAndTail(words);
      assert draws == [draws[0]] + draws[1..];
    }
  }

  lemma HeadAndTail(words: seq<int>)
    requires words != []
    ensures AllAccepted(words) <==> 0 <= words[0] < RejectionLimit(|words| + 1) && AllAccepted(words[1..])
    ensures DrawsOf(words) == [words[0] % (|words| + 1)] + DrawsOf(words[1..])
  {
    var t := words[1..];
    assert forall k :: 0 <= k < |t| ==> t[k] == words[k + 1];
    if 0 <= words[0] < RejectionLimit(|words| + 1) && AllAccepted(t) {
      forall k | 0 <= k < |words| ensures 0 <= words[k] < RejectionLimit(|words| - k + 1) {
        if k > 0 { assert 0 <= t[k - 1] < RejectionLimit(|t| - (k - 1) + 1); }
      }
    }
  }

  lemma {:induction false} WordsBehindSize(draws: seq<nat>)
    requires ValidDraws(draws)
    ensures |WordsBehind(draws)| == WaysPerOutcome(|draws|)
    decreases |draws|
  {
    if draws == [] {
    } else {
      RestOfDraws(draws);
      WordsBehindSize(draws[1..]);
      EveryIndexIsEquallyLikely(|draws| + 1, draws[0]);
      PrefixedSize(WordsFor(|draws| + 1, draws[0]), WordsBehind(draws[1..]));
    }
  }

  /**
   The shuffle is uniform: whatever permutation `p` of the distinct elements one names, the
   accepted word sequences that produce it are equally many.
   */
  lemma EveryPermutationIsEquallyLikely<T>(s: seq<T>, p: seq<T>) returns (words: set<seq<int>>)
    requires Distinct(s) && multiset(s) == multiset(p) && s != []
    ensures forall ws: seq<int> ::
      ws in words <==> |ws| == |s| - 1 && AllAccepted(ws) && Shuffled(s, DrawsOf(ws)) == p
    ensures |words| == WaysPerOutcome(|s| - 1)
  {
    var draws := ShuffleIsBijective(s, p);
    words := WordsBehind(draws);
    WordsBehindSize(draws);
    forall ws: seq<int>
      ensures ws in words <==> |ws| == |s| - 1 && AllAccepted(ws) && Shuffled(s, DrawsOf(ws)) == p
    {
      WordsBehindExactly(draws, ws);
    }
  }
}
