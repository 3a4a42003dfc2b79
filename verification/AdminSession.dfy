/**
 Signed administrator sessions: `src/lib/auth.ts` and `src/lib/hmac.js`. The MAC and the text
 form of a payload are parameters with the laws the code relies on.
 */
module AdminSession {
  import opened Wrappers
  import opened AdminAccounts

  datatype Payload = Payload(issuedAt: int, expiresAt: int, adminId: MemberId, loginId: string, permissionVersion: nat)

  datatype Crypto = Crypto(mac: string -> string, encode: Payload -> string, decode: string -> Option<Payload>)

  /** A digest in hexadecimal is not empty and has no full stop; a payload survives its text form. */
  ghost predicate Lawful(c: Crypto) {
    (forall s :: c.mac(s) != "" && '.' !in c.mac(s)) &&
    (forall p :: c.encode(p) != "" && c.decode(c.encode(p)) == Some(p))
  }

  // ---- tokens ----------------------------------------------------------------------------------

  function LastIndexOf(s: string, c: char): (i: int)
    ensures -1 <= i < |s| && (i >= 0 ==> s[i] == c)
    ensures forall k :: i < k < |s| ==> s[k] != c
  {
    if s == "" then -1
    else if s[|s| - 1] == c then |s| - 1
    else LastIndexOf(s[..|s| - 1], c)
  }

  function SplitSignedToken(token: string): Option<(string, string)> {
    var i := LastIndexOf(token, '.');
    if i <= 0 || i >= |token| - 1 then None else Some((token[..i], token[i + 1..]))
  }

  function SignPayload(c: Crypto, payload: string): string { payload + "." + c.mac(payload) }

  /** Splitting undoes joining exactly when the signature holds no separator and no part is empty. */
  lemma SplitOfJoined(payload: string, signature: string)
    ensures SplitSignedToken(payload + "." + signature) == Some((payload, signature)) <==>
      payload != "" && signature != "" && '.' !in signature
  {
    var token := payload + "." + signature;
    var i := LastIndexOf(token, '.');
    assert token[|payload|] == '.';
    if i == |payload| {
      assert token[..i] == payload && token[i + 1..] == signature;
      forall k | 0 <= k < |signature| ensures signature[k] != '.' {
        assert token[i + 1 + k] == signature[k];
      }
    } else {
      assert signature[i - |payload| - 1] == token[i] == '.';
    }
  }

  /** `parseAdminSessionToken` at time `now`. */
  function ParseToken(c: Crypto, token: string, now: int): Option<Payload> {
    var parts := SplitSignedToken(token);
    if parts.None? || c.mac(parts.value.0) != parts.value.1 then None
    else
      var parsed := c.decode(parts.value.0);
      if parsed.None? || parsed.value.loginId == "" then None
      else if parsed.value.expiresAt > now && parsed.value.issuedAt <= now then parsed
      else None
  }

  /** Hours from the environment (`None` when unset or not a number), clamped to 1..24. */
  function TtlSeconds(hours: Option<int>): (seconds: nat)
    ensures 3600 <= seconds <= 86_400
  {
    var chosen := if hours.Some? then hours.value else 12;
    var atLeastOne := if chosen < 1 then 1 else chosen;
    (if atLeastOne > 24 then 24 else atLeastOne) * 60 * 60
  }

  /** The configured hours if they are from 1 to 24, twelve if there are none. */
  function Lifetime(hours: Option<int>): nat {
    match hours
    case None => 43_200_000
    case Some(h) => if h <= 1 then 3_600_000 else if h >= 24 then 86_400_000 else 3_600_000 * h
  }

  lemma TtlIsLifetime(hours: Option<int>)
    ensures TtlSeconds(hours) * 1000 == Lifetime(hours)
  {
  }

  function Minted(id: MemberId, account: Account, hours: Option<int>, now: int): Payload {
    Payload(now, now + TtlSeconds(hours) * 1000, id, account.loginId, account.permissionVersion)
  }

  /** A minted token gives its payload back exactly from its issue until its expiry. */
  lemma MintedParses(c: Crypto, p: Payload, now: int)
    requires Lawful(c)
    ensures ParseToken(c, SignPayload(c, c.encode(p)), now) ==
      if p.loginId != "" && p.issuedAt <= now < p.expiresAt then Some(p) else None
  {
    SplitOfJoined(c.encode(p), c.mac(c.encode(p)));
  }

  /** Nothing else parses: an accepted token is a decodable text followed by that text's own digest. */
  lemma OnlySignedParses(c: Crypto, token: string, now: int)
    requires Lawful(c)
    ensures ParseToken(c, token, now).Some? <==>
      exists text :: token == SignPayload(c, text) && text != "" && c.decode(text).Some? &&
        c.decode(text).value.loginId != "" && c.decode(text).value.issuedAt <= now < c.decode(text).value.expiresAt
  {
    if ParseToken(c, token, now).Some? {
      var text := SplitSignedToken(token).value.0;
      assert token == SignPayload(c, text);
    }
    forall text | token == SignPayload(c, text) && text != ""
      ensures SplitSignedToken(token) == Some((text, c.mac(text)))
    {
      SplitOfJoined(text, c.mac(text));
    }
  }

  // ---- sessions --------------------------------------------------------------------------------

  /** The cookie store's one entry this component uses. */
  class CookieStore {
    var adminSession: Option<string>

    /** `setAdminSession`. */
    method SetAdminSession(c: Crypto, id: MemberId, account: Account, hours: Option<int>, now: int)
      modifies this
      ensures adminSession == Some(SignPayload(c, c.encode(Minted(id, account, hours, now))))
    {
      var ttlMs := TtlSeconds(hours) * 1000;
      var payload := c.encode(Payload(now, now + ttlMs, id, account.loginId, account.permissionVersion));
      adminSession := Some(SignPayload(c, payload));
    }
  }

  /** `getAdminSession`: the payload of the session, if the cookie is accepted. */
  function GetSession(c: Crypto, cookie: Option<string>, site: Site, profiles: Profiles, now: int): Option<Payload> {
    if cookie.None? || cookie.value == "" then None
    else
      var payload := ParseToken(c, cookie.value, now);
      if payload.None? then None
      else
        var account := AccountOf(site, profiles, payload.value.adminId);
        if account.None? || !account.value.isActive || account.value.mustChangePassword then None
        else if account.value.permissionVersion != payload.value.permissionVersion then None
        else payload
  }

  /**
   A session minted for an account is accepted, after any run of administrator operations,
   exactly within its lifetime, while the account may sign in, and as long as not a single
   write of that account's profile has happened since, not even one that restores it.
   */
  lemma SessionDiesWithAnyChange(
    c: Crypto, site: Site, profiles: Profiles, id: MemberId, hours: Option<int>, issuedAt: int, calls: seq<Call>,
    now: int)
    requires Lawful(c) && AccountOf(site, profiles, id).Some?
    ensures var account := AccountOf(site, profiles, id).value;
      var minted := Minted(id, account, hours, issuedAt);
      var accepted := GetSession(c, Some(SignPayload(c, c.encode(minted))), site, After(site, profiles, calls), now);
      && (accepted.Some? <==>
            issuedAt <= now < issuedAt + Lifetime(hours) && account.isActive && !account.mustChangePassword &&
            Writes(site, profiles, calls, id) == 0)
      && (accepted.Some? ==>
            accepted.value.adminId == id && accepted.value.loginId == account.loginId &&
            accepted.value.issuedAt == issuedAt && accepted.value.expiresAt == issuedAt + Lifetime(hours))
  {
    TtlIsLifetime(hours);
    hide ParseToken, After, Writes, TtlSeconds, SignPayload, Lifetime;
    var account := AccountOf(site, profiles, id).value;
    var p := Minted(id, account, hours, issuedAt);
    MintedParses(c, p, now);
    SignedIsNotEmpty(c, c.encode(p));
    VersionCountsWrites(site, profiles, calls, id);
    assert account.loginId != "";
    var after := After(site, profiles, calls);
    if Writes(site, profiles, calls, id) == 0 {
      OthersUnaffected(site, profiles, after, id);
    }
  }

  lemma SignedIsNotEmpty(c: Crypto, payload: string)
    ensures SignPayload(c, payload) != ""
  {
  }
}
