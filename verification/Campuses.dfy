/** Campus slugs of `src/lib/campuses.ts`. */
module Campuses {
  import opened JsText

  predicate IsCampusSlug(s: string) {
    s == "seoul" || s == "gumi" || s == "daejeon" || s == "busan-ulsan-gyeongnam" || s == "gwangju"
  }

  /** `normalizeCampusSlugs`: trimmed, known and each at its first place only. */
  function NormalizeSlugs(values: seq<string>): seq<string> {
    if values == [] then []
    else
      var front, slug := NormalizeSlugs(values[..|values| - 1]), Trim(values[|values| - 1]);
      if IsCampusSlug(slug) && slug !in front then front + [slug] else front
  }

  lemma NormalizeNothing()
    ensures NormalizeSlugs([]) == []
  {
  }

  predicate DistinctSlugs(slugs: seq<string>) {
    && (forall i :: 0 <= i < |slugs| ==> IsCampusSlug(slugs[i]))
    && forall i, j :: 0 <= i < j < |slugs| ==> slugs[i] != slugs[j]
  }

  /** The known slugs have no white space at either end. */
  lemma SlugIsTrimmed(s: string)
    requires IsCampusSlug(s)
    ensures Trim(s) == s
  {
    TrimOfTrimmed(s);
  }

  lemma {:induction false} NormalizedAreDistinct(values: seq<string>)
    ensures DistinctSlugs(NormalizeSlugs(values))
  {
    if values == [] {
    } else {
      NormalizedAreDistinct(values[..|values| - 1]);
    }
  }

  lemma OneMoreSlug(front: seq<string>, slug: string)
    requires IsCampusSlug(slug) && slug !in NormalizeSlugs(front)
    ensures NormalizeSlugs(front + [slug]) == NormalizeSlugs(front) + [slug]
  {
    SlugIsTrimmed(slug);
    hide IsCampusSlug, Trim;
    assert (front + [slug])[..|front|] == front;
  }

  lemma {:induction false} SlugsAreNormal(slugs: seq<string>)
    requires DistinctSlugs(slugs)
    ensures NormalizeSlugs(slugs) == slugs
  {
    hide IsCampusSlug, Trim, NormalizeSlugs;
    if slugs == [] {
      NormalizeNothing();
    } else {
      var front, last := slugs[..|slugs| - 1], slugs[|slugs| - 1];
      SlugsAreNormal(front);
      assert slugs == front + [last] && last !in front;
      OneMoreSlug(front, last);
    }
  }

  /** Normalising again changes nothing. */
  lemma NormalizeTwice(values: seq<string>)
    ensures NormalizeSlugs(NormalizeSlugs(values)) == NormalizeSlugs(values)
  {
    NormalizedAreDistinct(values);
    SlugsAreNormal(NormalizeSlugs(values));
  }

  /** Only the five campuses survive, each if some value names it. */
  lemma {:induction false} SlugsMean(values: seq<string>, slug: string)
    ensures slug in NormalizeSlugs(values) <==>
      slug in {"seoul", "gumi", "daejeon", "busan-ulsan-gyeongnam", "gwangju"} &&
      exists i :: 0 <= i < |values| && Trim(values[i]) == slug
  {
    hide Trim;
    if values == [] {
    } else {
      var front, last := values[..|values| - 1], values[|values| - 1];
      SlugsMean(front, slug);
      assert forall i :: 0 <= i < |front| ==> front[i] == values[i];
    }
  }

  lemma {:induction false} KnownIsKept(values: seq<string>, i: nat)
    requires i < |values| && IsCampusSlug(Trim(values[i]))
    ensures Trim(values[i]) in NormalizeSlugs(values)
  {
    hide Trim, IsCampusSlug;
    if i < |values| - 1 {
      KnownIsKept(values[..|values| - 1], i);
    }
  }

  /** `places[k]` is where `slugs[k]` is named for the first time, and they come in that order. */
  predicate FirstNamedAt(values: seq<string>, slugs: seq<string>, places: seq<nat>) {
    && |places| == |slugs|
    && (forall k :: 0 <= k < |places| ==> places[k] < |values| && Trim(values[places[k]]) == slugs[k])
    && (forall j, k :: 0 <= j < k < |places| ==> places[j] < places[k])
    && (forall k, i :: 0 <= k < |places| && 0 <= i < places[k] ==> Trim(values[i]) != slugs[k])
  }

  lemma SlugsInOrderOneMore(front: seq<string>, value: string, slugs: seq<string>, places: seq<nat>)
    requires FirstNamedAt(front, slugs, places)
    ensures FirstNamedAt(front + [value], slugs, places)
    ensures (forall i :: 0 <= i < |front| ==> Trim(front[i]) != Trim(value)) ==>
      FirstNamedAt(front + [value], slugs + [Trim(value)], places + [|front|])
  {
    hide Trim;
  }

  lemma {:induction false} SlugsInOrder(values: seq<string>) returns (places: seq<nat>)
    ensures FirstNamedAt(values, NormalizeSlugs(values), places)
  {
    if values == [] {
      places := [];
    } else {
      var front, last := values[..|values| - 1], values[|values| - 1];
      var before := SlugsInOrder(front);
      var kept := NormalizeSlugs(front);
      assert values == front + [last];
      SlugsInOrderOneMore(front, last, kept, before);
      hide Trim, IsCampusSlug, FirstNamedAt;
      if IsCampusSlug(Trim(last)) && Trim(last) !in kept {
        forall i | 0 <= i < |front| ensures Trim(front[i]) != Trim(last) {
          if Trim(front[i]) == Trim(last) { KnownIsKept(front, i); }
        }
        places := before + [|front|];
      } else {
        places := before;
      }
    }
  }
}
