/**
 The home directory's URL state: `src/lib/home-directory-state.ts`, over the list of name and
 value pairs of a URLSearchParams object.
 */
module HomeDirectoryState {
  import opened Wrappers
  import opened JsText
  import opened Campuses

  // ---- URLSearchParams -----------------------------------------------------------------------

  datatype Pair = Pair(name: string, value: string)

  /** All values of a name, in order. */
  function Named(pairs: seq<Pair>, name: string): seq<string> {
    if pairs == [] then []
    else (if pairs[0].name == name then [pairs[0].value] else []) + Named(pairs[1..], name)
  }

  /** The pairs whose name is not one of `keys`, in order. */
  function Others(pairs: seq<Pair>, keys: set<string>): seq<Pair> {
    if pairs == [] then []
    else (if pairs[0].name in keys then [] else [pairs[0]]) + Others(pairs[1..], keys)
  }

  /** `get`: the first value. */
  function Get(pairs: seq<Pair>, name: string): Option<string> {
    if pairs == [] then None
    else if pairs[0].name == name then Some(pairs[0].value)
    else Get(pairs[1..], name)
  }

  /** `delete`: every pair of the name goes. */
  function Without(pairs: seq<Pair>, name: string): seq<Pair> {
    if pairs == [] then []
    else (if pairs[0].name == name then [] else [pairs[0]]) + Without(pairs[1..], name)
  }

  /** `set`: the first pair of the name takes the value, the others go; a new name is appended. */
  function With(pairs: seq<Pair>, name: string, value: string): seq<Pair> {
    if pairs == [] then [Pair(name, value)]
    else if pairs[0].name == name then [Pair(name, value)] + Without(pairs[1..], name)
    else [pairs[0]] + With(pairs[1..], name, value)
  }

  class UrlSearchParams {
    var pairs: seq<Pair>

    constructor (pairs: seq<Pair>)
      ensures this.pairs == pairs
    {
      this.pairs := pairs;
    }

    method Set(name: string, value: string)
      modifies this
      ensures pairs == With(old(pairs), name, value)
    {
      pairs := With(pairs, name, value);
    }

    method Delete(name: string)
      modifies this
      ensures pairs == Without(old(pairs), name)
    {
      pairs := Without(pairs, name);
    }
  }

  // ---- the state -----------------------------------------------------------------------------

  datatype State = State(q: string, category: string, campus: string, audience: string, sort: string, view: string)

  const DEFAULTS := State("", "all", "all", "all", "popular", "card")

  predicate IsAudienceKey(s: string) { s == "staff" || s == "student" || s == "graduate" }

  predicate IsSort(s: string) { s == "popular" || s == "recent" || s == "endingSoon" }

  predicate IsView(s: string) { s == "card" || s == "list" }

  predicate IsAlphanumeric(c: char) { 'a' <= c <= 'z' || 'A' <= c <= 'Z' || '0' <= c <= '9' }

  /** `/^[a-z0-9][a-z0-9_-]*$/i`. */
  predicate IsCategoryName(s: string) {
    s != "" && IsAlphanumeric(s[0]) && forall i :: 1 <= i < |s| ==> IsAlphanumeric(s[i]) || s[i] == '_' || s[i] == '-'
  }

  predicate IsKnownCategory(s: string, allowed: Option<seq<string>>) {
    s != "" && if allowed.Some? then s in allowed.value else IsCategoryName(s)
  }

  function ParseCategory(value: string, allowed: Option<seq<string>>): string {
    if value == "" || value == "all" then "all"
    else if allowed.Some? then if value in allowed.value then value else "all"
    else if IsCategoryName(value) then value
    else "all"
  }

  /** `searchParams.get(name)?.trim() ?? ""`. */
  function Raw(pairs: seq<Pair>, name: string): string {
    var value := Get(pairs, name);
    if value.Some? then Trim(value.value) else ""
  }

  function Parse(pairs: seq<Pair>, allowed: Option<seq<string>>): State {
    var rawAudience, rawSort := Raw(pairs, "audience"), Raw(pairs, "sort");
    var rawCampus, rawView := Raw(pairs, "campus"), Raw(pairs, "view");
    State(
      Raw(pairs, "q"),
      ParseCategory(Raw(pairs, "category"), allowed),
      if rawCampus == "all" || IsCampusSlug(rawCampus) then rawCampus else DEFAULTS.campus,
      if rawAudience == "all" || IsAudienceKey(rawAudience) then rawAudience else DEFAULTS.audience,
      if IsSort(rawSort) then rawSort else DEFAULTS.sort,
      if IsView(rawView) then rawView else DEFAULTS.view)
  }

  datatype Entry = Entry(key: string, value: string, fallback: string)

  function Entries(state: State): seq<Entry> {
    [Entry("q", Trim(state.q), DEFAULTS.q),
     Entry("category", state.category, DEFAULTS.category),
     Entry("campus", state.campus, DEFAULTS.campus),
     Entry("audience", state.audience, DEFAULTS.audience),
     Entry("sort", state.sort, DEFAULTS.sort),
     Entry("view", state.view, DEFAULTS.view)]
  }

  predicate Omitted(e: Entry) { e.value == "" || e.value == e.fallback }

  function Updated(pairs: seq<Pair>, e: Entry): seq<Pair> {
    if Omitted(e) then Without(pairs, e.key) else With(pairs, e.key, e.value)
  }

  function AllUpdated(pairs: seq<Pair>, entries: seq<Entry>): seq<Pair>
    decreases |entries|
  {
    if entries == [] then pairs else AllUpdated(Updated(pairs, entries[0]), entries[1..])
  }

  function Serialized(state: State, current: seq<Pair>): seq<Pair> {
    AllUpdated(current, Entries(state))
  }

  /** `serializeHomeDirectoryState`: a copy of the current parameters, updated key by key. */
  method Serialize(state: State, current: seq<Pair>) returns (params: UrlSearchParams)
    ensures fresh(params) && params.pairs == Serialized(state, current)
  {
    params := new UrlSearchParams(current);
    var entries := Entries(state);
    for i := 0 to |entries|
      invariant fresh(params)
      invariant AllUpdated(params.pairs, entries[i..]) == Serialized(state, current)
    {
      assert entries[i..][0] == entries[i] && entries[i..][1..] == entries[i + 1..];
      if Omitted(entries[i]) {
        params.Delete(entries[i].key);
      } else {
        params.Set(entries[i].key, entries[i].value);
      }
    }
    assert entries[|entries|..] == [];
  }

  // ---- one update ----------------------------------------------------------------------------

  /** What an update leaves under its own key. */
  function Target(e: Entry): seq<string> { if Omitted(e) then [] else [e.value] }

  lemma {:induction false} WithoutNames(pairs: seq<Pair>, name: string, other: string)
    ensures Named(Without(pairs, name), other) == if other == name then [] else Named(pairs, other)
  {
    if pairs == [] {
    } else {
      WithoutNames(pairs[1..], name, other);
      if pairs[0].name != name {
        assert Without(pairs, name)[1..] == Without(pairs[1..], name);
      } else {
        assert Without(pairs, name) == Without(pairs[1..], name);
      }
    }
  }

  lemma {:induction false} WithNames(pairs: seq<Pair>, name: string, value: string, other: string)
    ensures Named(With(pairs, name, value), other) == if other == name then [value] else Named(pairs, other)
  {
    if pairs == [] {
      assert [Pair(name, value)][1..] == [];
    } else if pairs[0].name == name {
      WithoutNames(pairs[1..], name, other);
      assert With(pairs, name, value)[1..] == Without(pairs[1..], name);
    } else {
      WithNames(pairs[1..], name, value, other);
      assert With(pairs, name, value)[1..] == With(pairs[1..], name, value);
    }
  }

  lemma UpdateNames(pairs: seq<Pair>, e: Entry, other: string)
    ensures Named(Updated(pairs, e), other) == if other == e.key then Target(e) else Named(pairs, other)
  {
    if Omitted(e) { WithoutNames(pairs, e.key, other); } else { WithNames(pairs, e.key, e.value, other); }
  }

  lemma {:induction false} WithoutAbsent(pairs: seq<Pair>, name: string)
    requires Named(pairs, name) == []
    ensures Without(pairs, name) == pairs
  {
    if pairs == [] {
    } else {
      WithoutAbsent(pairs[1..], name);
    }
  }

  lemma {:induction false} WithPresent(pairs: seq<Pair>, name: string, value: string)
    requires Named(pairs, name) == [value]
    ensures With(pairs, name, value) == pairs
  {
    if pairs[0].name == name {
      assert Named(pairs, name) == [pairs[0].value] + Named(pairs[1..], name);
      assert Named(pairs, name)[0] == pairs[0].value == value;
      assert |Named(pairs[1..], name)| == 0;
      WithoutAbsent(pairs[1..], name);
      assert pairs == [Pair(name, value)] + pairs[1..];
    } else {
      WithPresent(pairs[1..], name, value);
    }
  }

  /** An update whose outcome is already there changes nothing, not even an order. */
  lemma UpdateSettled(pairs: seq<Pair>, e: Entry)
    requires Named(pairs, e.key) == Target(e)
    ensures Updated(pairs, e) == pairs
  {
    if Omitted(e) { WithoutAbsent(pairs, e.key); } else { WithPresent(pairs, e.key, e.value); }
  }

  lemma {:induction false} WithoutOthers(pairs: seq<Pair>, name: string, keys: set<string>)
    requires name in keys
    ensures Others(Without(pairs, name), keys) == Others(pairs, keys)
  {
    if pairs == [] {
    } else {
      WithoutOthers(pairs[1..], name, keys);
      if pairs[0].name != name {
        assert Without(pairs, name)[1..] == Without(pairs[1..], name);
      } else {
        assert Without(pairs, name) == Without(pairs[1..], name);
      }
    }
  }

  lemma {:induction false} WithOthers(pairs: seq<Pair>, name: string, value: string, keys: set<string>)
    requires name in keys
    ensures Others(With(pairs, name, value), keys) == Others(pairs, keys)
  {
    if pairs == [] {
      assert [Pair(name, value)][1..] == [];
    } else if pairs[0].name == name {
      WithoutOthers(pairs[1..], name, keys);
      assert With(pairs, name, value)[1..] == Without(pairs[1..], name);
    } else {
      WithOthers(pairs[1..], name, value, keys);
      assert With(pairs, name, value)[1..] == With(pairs[1..], name, value);
    }
  }

  // ---- all updates ---------------------------------------------------------------------------

  predicate DistinctKeys(entries: seq<Entry>) {
    forall i, j :: 0 <= i < j < |entries| ==> entries[i].key != entries[j].key
  }

  predicate AllSettled(pairs: seq<Pair>, entries: seq<Entry>) {
    forall i :: 0 <= i < |entries| ==> Named(pairs, entries[i].key) == Target(entries[i])
  }

  lemma {:induction false} UntouchedName(pairs: seq<Pair>, entries: seq<Entry>, name: string)
    requires forall i :: 0 <= i < |entries| ==> entries[i].key != name
    ensures Named(AllUpdated(pairs, entries), name) == Named(pairs, name)
    decreases |entries|
  {
    if entries == [] {
    } else {
      UpdateNames(pairs, entries[0], name);
      UntouchedName(Updated(pairs, entries[0]), entries[1..], name);
    }
  }

  lemma {:induction false} UpdatesSettle(pairs: seq<Pair>, entries: seq<Entry>)
    requires DistinctKeys(entries)
    ensures AllSettled(AllUpdated(pairs, entries), entries)
    decreases |entries|
  {
    if entries == [] {
    } else {
      var next, rest := Updated(pairs, entries[0]), entries[1..];
      UpdateNames(pairs, entries[0], entries[0].key);
      UntouchedName(next, rest, entries[0].key);
      UpdatesSettle(next, rest);
      var result := AllUpdated(pairs, entries);
      forall i | 0 <= i < |entries| ensures Named(result, entries[i].key) == Target(entries[i]) {
        if i > 0 { assert rest[i - 1] == entries[i]; }
      }
    }
  }

  lemma {:induction false} SettledStays(pairs: seq<Pair>, entries: seq<Entry>)
    requires AllSettled(pairs, entries)
    ensures AllUpdated(pairs, entries) == pairs
  {
    if entries == [] {
    } else {
      UpdateSettled(pairs, entries[0]);
      forall i | 0 <= i < |entries| - 1 ensures Named(pairs, entries[1..][i].key) == Target(entries[1..][i]) {
        assert entries[1..][i] == entries[i + 1];
      }
      SettledStays(pairs, entries[1..]);
    }
  }

  lemma {:induction false} UpdatesKeepOthers(pairs: seq<Pair>, entries: seq<Entry>, keys: set<string>)
    requires forall i :: 0 <= i < |entries| ==> entries[i].key in keys
    ensures Others(AllUpdated(pairs, entries), keys) == Others(pairs, keys)
    decreases |entries|
  {
    if entries == [] {
    } else {
      var e := entries[0];
      if Omitted(e) { WithoutOthers(pairs, e.key, keys); } else { WithOthers(pairs, e.key, e.value, keys); }
      UpdatesKeepOthers(Updated(pairs, e), entries[1..], keys);
    }
  }

  // ---- serialize and parse -------------------------------------------------------------------

  const STATE_KEYS: set<string> := {"q", "category", "campus", "audience", "sort", "view"}

  lemma DistinctEntries(state: State)
    ensures DistinctKeys(Entries(state))
  {
    var e := Entries(state);
    assert e[0].key == "q" && e[1].key[1] == 'a' && e[2].key[2] == 'm' && e[3].key[0] == 'a';
    assert e[1].key[2] == 't' && e[4].key[0] == 's' && e[5].key[0] == 'v' && e[2].key[0] == 'c' && e[1].key[0] == 'c';
  }

  /** Parameters that do not belong to the state keep their values and their order. */
  lemma OtherParametersKept(state: State, current: seq<Pair>)
    ensures Others(Serialized(state, current), STATE_KEYS) == Others(current, STATE_KEYS)
  {
    UpdatesKeepOthers(current, Entries(state), STATE_KEYS);
  }

  /** Serializing the same state again changes nothing. */
  lemma SerializingIsIdempotent(state: State, current: seq<Pair>)
    ensures Serialized(state, Serialized(state, current)) == Serialized(state, current)
  {
    hide AllUpdated, AllSettled, DistinctKeys, Entries;
    DistinctEntries(state);
    UpdatesSettle(current, Entries(state));
    SettledStays(Serialized(state, current), Entries(state));
  }

  /** What the parser can return. */
  predicate Canonical(state: State, allowed: Option<seq<string>>) {
    && Trimmed(state.q)
    && (state.category == "all" || (Trimmed(state.category) && IsKnownCategory(state.category, allowed)))
    && (state.campus == "all" || IsCampusSlug(state.campus))
    && (state.audience == "all" || IsAudienceKey(state.audience))
    && IsSort(state.sort) && IsView(state.view)
  }

  lemma ParsedIsCanonical(pairs: seq<Pair>, allowed: Option<seq<string>>)
    ensures Canonical(Parse(pairs, allowed), allowed)
  {
    RawIsTrimmed(pairs, "q");
    RawIsTrimmed(pairs, "category");
  }

  lemma RawIsTrimmed(pairs: seq<Pair>, name: string)
    ensures Trimmed(Raw(pairs, name))
  {
    var value := Get(pairs, name);
    if value.Some? { TrimResult(value.value); }
  }

  lemma {:induction false} GetIsFirst(pairs: seq<Pair>, name: string)
    ensures Get(pairs, name) == if Named(pairs, name) == [] then None else Some(Named(pairs, name)[0])
  {
    if pairs == [] {
    } else {
      GetIsFirst(pairs[1..], name);
    }
  }

  lemma SettledRaw(pairs: seq<Pair>, e: Entry)
    requires Named(pairs, e.key) == Target(e)
    ensures Raw(pairs, e.key) == if Omitted(e) then "" else Trim(e.value)
  {
    hide Trim;
    GetIsFirst(pairs, e.key);
  }

  predicate RawSettled(pairs: seq<Pair>, e: Entry) {
    Raw(pairs, e.key) == if Omitted(e) then "" else Trim(e.value)
  }

  lemma SerializedRaws(state: State, current: seq<Pair>)
    ensures forall i :: 0 <= i < 6 ==> RawSettled(Serialized(state, current), Entries(state)[i])
  {
    hide Trim, AllUpdated, Named, Raw, DistinctKeys;
    var entries := Entries(state);
    DistinctEntries(state);
    UpdatesSettle(current, entries);
    forall i | 0 <= i < 6 ensures RawSettled(Serialized(state, current), entries[i]) {
      SettledRaw(Serialized(state, current), entries[i]);
    }
  }

  /** The values a canonical state holds under a key other than `q` survive trimming. */
  lemma CanonicalIsTrimmed(state: State, allowed: Option<seq<string>>)
    requires Canonical(state, allowed)
    ensures Trim(state.category) == state.category && Trim(state.campus) == state.campus
    ensures Trim(state.audience) == state.audience && Trim(state.sort) == state.sort && Trim(state.view) == state.view
  {
    hide Trim;
    hide IsCategoryName;
    if state.category != "all" { TrimOfTrimmed(state.category); }
    OptionIsTrimmed("all");
    OptionIsTrimmed(state.campus);
    OptionIsTrimmed(state.audience);
    OptionIsTrimmed(state.sort);
    OptionIsTrimmed(state.view);
  }

  predicate IsOption(s: string) { s == "all" || IsCampusSlug(s) || IsAudienceKey(s) || IsSort(s) || IsView(s) }

  lemma OptionIsTrimmed(s: string)
    requires IsOption(s)
    ensures Trim(s) == s
  {
    hide Trim;
    TrimOfTrimmed(s);
  }

  /** Reading the parameters of a canonical state back, key by key. */
  lemma ParseBack(state: State, pairs: seq<Pair>, allowed: Option<seq<string>>)
    requires Canonical(state, allowed)
    requires forall i :: 0 <= i < 6 ==> RawSettled(pairs, Entries(state)[i])
    ensures Parse(pairs, allowed) == state
  {
    hide Trim, Raw, Trimmed, IsCategoryName;
    var entries := Entries(state);
    TrimOfTrimmed(state.q);
    CanonicalIsTrimmed(state, allowed);
    assert RawSettled(pairs, entries[0]) && RawSettled(pairs, entries[1]) && RawSettled(pairs, entries[2]);
    assert RawSettled(pairs, entries[3]) && RawSettled(pairs, entries[4]) && RawSettled(pairs, entries[5]);
  }

  /**
   Parsing what was serialized over any current parameters gives the state back exactly when
   the parser could have returned it in the first place.
   */
  lemma RoundTrip(state: State, current: seq<Pair>, allowed: Option<seq<string>>)
    ensures Parse(Serialized(state, current), allowed) == state <==> Canonical(state, allowed)
  {
    hide Serialized, Parse, Canonical, RawSettled;
    ParsedIsCanonical(Serialized(state, current), allowed);
    if Canonical(state, allowed) {
      SerializedRaws(state, current);
      ParseBack(state, Serialized(state, current), allowed);
    }
  }

  // ---- what the parameters mean -----------------------------------------------------------------

  /** The first value of a parameter, without the white space around it; empty when there is none. */
  function Typed(pairs: seq<Pair>, name: string): string {
    var values := Named(pairs, name);
    if values == [] then "" else Trim(values[0])
  }

  /** A category's name: letters, digits, underscores and hyphens, beginning with a letter or digit. */
  predicate IsSlugLike(s: string) {
    s != "" && s[0] != '_' && s[0] != '-' &&
    forall c :: c in s ==> 'a' <= c <= 'z' || 'A' <= c <= 'Z' || '0' <= c <= '9' || c == '_' || c == '-'
  }

  lemma CategoryNames(s: string)
    ensures IsCategoryName(s) <==> IsSlugLike(s)
  {
    if IsSlugLike(s) {
      assert forall i :: 0 <= i < |s| ==> s[i] in s;
    }
  }

  /** Each key has its known values; anything else, and nothing at all, means the default. */
  lemma ParseMeans(pairs: seq<Pair>, allowed: Option<seq<string>>)
    ensures var state := Parse(pairs, allowed);
      var category, campus, audience := Typed(pairs, "category"), Typed(pairs, "campus"), Typed(pairs, "audience");
      && state.q == Typed(pairs, "q")
      && state.category == (
        if category != "" && (if allowed.Some? then category in allowed.value else IsSlugLike(category)) then category
        else "all")
      && state.campus == (
        if campus == "seoul" || campus == "gumi" || campus == "daejeon" || campus == "busan-ulsan-gyeongnam" ||
           campus == "gwangju" then campus else "all")
      && state.audience == (
        if audience == "staff" || audience == "student" || audience == "graduate" then audience else "all")
      && state.sort == (
        if Typed(pairs, "sort") == "recent" then "recent"
        else if Typed(pairs, "sort") == "endingSoon" then "endingSoon" else "popular")
      && state.view == (if Typed(pairs, "view") == "list" then "list" else "card")
  {
    GetIsFirst(pairs, "q");
    GetIsFirst(pairs, "category");
    GetIsFirst(pairs, "campus");
    GetIsFirst(pairs, "audience");
    GetIsFirst(pairs, "sort");
    GetIsFirst(pairs, "view");
    CategoryNames(Typed(pairs, "category"));
    hide Get, Named, Trim, IsCategoryName, IsSlugLike;
  }

  /** No parameters mean the defaults, and the defaults are written as no parameters. */
  lemma DefaultsAreSilent(allowed: Option<seq<string>>)
    ensures Parse([], allowed) == State("", "all", "all", "all", "popular", "card")
    ensures Serialized(State("", "all", "all", "all", "popular", "card"), []) == []
  {
    ParseMeans([], allowed);
    var entries := Entries(State("", "all", "all", "all", "popular", "card"));
    hide Parse;
    assert forall i :: 0 <= i < |entries| ==> Named([], entries[i].key) == Target(entries[i]);
    SettledStays([], entries);
  }

  /** After serializing, a key has one value exactly when the state says something other than the default. */
  lemma SerializedMeans(state: State, current: seq<Pair>)
    ensures var pairs := Serialized(state, current);
      && Named(pairs, "q") == (if Trim(state.q) == "" then [] else [Trim(state.q)])
      && Named(pairs, "category") == (if state.category in {"", "all"} then [] else [state.category])
      && Named(pairs, "campus") == (if state.campus in {"", "all"} then [] else [state.campus])
      && Named(pairs, "audience") == (if state.audience in {"", "all"} then [] else [state.audience])
      && Named(pairs, "sort") == (if state.sort in {"", "popular"} then [] else [state.sort])
      && Named(pairs, "view") == (if state.view in {"", "card"} then [] else [state.view])
  {
    hide AllUpdated, Named, DistinctKeys, Trim;
    var entries := Entries(state);
    DistinctEntries(state);
    UpdatesSettle(current, entries);
    var pairs := Serialized(state, current);
    assert Named(pairs, entries[0].key) == Target(entries[0]) && Named(pairs, entries[1].key) == Target(entries[1]);
    assert Named(pairs, entries[2].key) == Target(entries[2]) && Named(pairs, entries[3].key) == Target(entries[3]);
    assert Named(pairs, entries[4].key) == Target(entries[4]) && Named(pairs, entries[5].key) == Target(entries[5]);
  }
}
